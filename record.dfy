/** One plan node's instrumentation record and its timing/tuple state machine
    (InstrStartNode, InstrStopNode, InstrEndLoop).

    Time is an integer tick count read by the caller and passed in as `now`;
    a `starttime` of 0 means "no Start pending", exactly as the instr_time
    zero test does. Tuple counts and the double-valued totals are integers.
 */
module InstrRecord {

  /** The value of `slot` for a record allocated in private memory. */
  const Private: int := -1

  /** The fields the state machine reads and writes. */
  datatype RecordState = RecordState(
    starttime: int,   // start time of the pending Start, 0 when none is pending
    counter: int,     // time accumulated in the current cycle
    running: bool,    // a Stop has completed in the current cycle
    firsttuple: int,  // time to first output in the current cycle
    firststart: int,  // start time of the first Start of the current cycle
    tuplecount: int,  // tuples returned in the current cycle
    startup: int,     // time to first output of the first completed cycle
    total: int,       // time over all completed cycles
    ntuples: int,     // tuples over all completed cycles
    nloops: nat)      // number of completed cycles

  /** What a zeroed record holds. */
  const Zeroed := RecordState(0, 0, false, 0, 0, 0, 0, 0, 0, 0)

  /** Entry to a plan node: record the start time unless one is already pending. */
  function Start(s: RecordState, now: int): RecordState
  {
    if s.starttime == 0 then s.(starttime := now) else s
  }

  /** Exit from a plan node that returned `n` tuples. */
  function Stop(s: RecordState, n: int, now: int): RecordState
  {
    var counted := s.(tuplecount := s.tuplecount + n);
    if s.starttime == 0 then counted
    else
      var counter := s.counter + (now - s.starttime);
      counted.(counter := counter,
               running := true,
               firsttuple := if s.running then s.firsttuple else counter,
               firststart := if s.running then s.firststart else s.starttime,
               starttime := 0)
  }

  /** End of a run cycle: fold the cycle's accumulators into the totals and reset them. */
  function EndLoop(s: RecordState): RecordState
  {
    if !s.running then s
    else
      s.(startup := if s.nloops == 0 then s.firsttuple else s.startup,
         total := s.total + s.counter,
         ntuples := s.ntuples + s.tuplecount,
         nloops := s.nloops + 1,
         running := false,
         starttime := 0,
         counter := 0,
         firsttuple := 0,
         tuplecount := 0)
  }

  /** A call made by the executor on a record, in whatever order it comes. */
  datatype Call = StartCall(now: int) | StopCall(n: int, now: int) | EndLoopCall

  function Apply(s: RecordState, c: Call): RecordState
  {
    match c
    case StartCall(now) => Start(s, now)
    case StopCall(n, now) => Stop(s, n, now)
    case EndLoopCall => EndLoop(s)
  }

  /** The state after a sequence of calls. */
  function Run(s: RecordState, calls: seq<Call>): RecordState
    decreases |calls|
  {
    if calls == [] then s else Run(Apply(s, calls[0]), calls[1..])
  }

  /** The tuples reported by all Stop calls of a sequence. */
  function ReportedTuples(calls: seq<Call>): int
    decreases |calls|
  {
    if calls == [] then 0
    else (if calls[0].StopCall? then calls[0].n else 0) + ReportedTuples(calls[1..])
  }

  /** A cycle boundary: nothing pending and nothing accumulated for the current cycle. */
  predicate AtBoundary(s: RecordState)
  {
    s.starttime == 0 && !s.running && s.counter == 0 && s.tuplecount == 0
  }

  /** One Start/Stop pair of a well-behaved plan node. */
  datatype Interval = Interval(start: int, stop: int, tuples: int)

  /** The calls one cycle made of start/stop pairs issues. */
  function CycleCalls(c: seq<Interval>): seq<Call>
    decreases |c|
  {
    if c == [] then [] else [StartCall(c[0].start), StopCall(c[0].tuples, c[0].stop)] + CycleCalls(c[1..])
  }

  /** The calls of several cycles, each closed by an EndLoop (a rescan starts the next). */
  function RescanCalls(cs: seq<seq<Interval>>): seq<Call>
    decreases |cs|
  {
    if cs == [] then [] else CycleCalls(cs[0]) + [EndLoopCall] + RescanCalls(cs[1..])
  }

  function Elapsed(c: seq<Interval>): int
    decreases |c|
  {
    if c == [] then 0 else (c[0].stop - c[0].start) + Elapsed(c[1..])
  }

  function Tuples(c: seq<Interval>): int
    decreases |c|
  {
    if c == [] then 0 else c[0].tuples + Tuples(c[1..])
  }

  function TotalElapsed(cs: seq<seq<Interval>>): int
    decreases |cs|
  {
    if cs == [] then 0 else Elapsed(cs[0]) + TotalElapsed(cs[1..])
  }

  function TotalTuples(cs: seq<seq<Interval>>): int
    decreases |cs|
  {
    if cs == [] then 0 else Tuples(cs[0]) + TotalTuples(cs[1..])
  }

  /** A pair whose start reads as a real time: a clock reading of 0 is the "unset" value. */
  predicate Timed(c: seq<Interval>)
  {
    forall k :: 0 <= k < |c| ==> c[k].start != 0
  }

  /** Calls are processed one after another. */
  lemma {:induction false} RunAppend(s: RecordState, a: seq<Call>, b: seq<Call>)
    ensures Run(s, a + b) == Run(Run(s, a), b)
    decreases |a|
  {
    if a != [] {
      assert (a + b)[0] == a[0];
      assert (a + b)[1..] == a[1..] + b;
      RunAppend(Apply(s, a[0]), a[1..], b);
    } else {
      assert a + b == b;
    }
  }

  /** Tuples are never lost, whatever the order of the calls: every tuple a
      Stop reports ends up either in the current cycle's count or in the
      total, including those reported by a Stop without a Start and those
      left in a cycle that EndLoop skipped because it was idle. */
  lemma {:induction false} TuplesNeverLost(s: RecordState, calls: seq<Call>)
    ensures Run(s, calls).ntuples + Run(s, calls).tuplecount
         == s.ntuples + s.tuplecount + ReportedTuples(calls)
    decreases |calls|
  {
    if calls != [] {
      TuplesNeverLost(Apply(s, calls[0]), calls[1..]);
    }
  }

  /** Whatever the order of the calls, the number of completed cycles never
      decreases, and once one cycle has completed the startup time is never
      written again: startup comes from the first cycle only. */
  lemma {:induction false} StartupLatchedOnce(s: RecordState, calls: seq<Call>)
    ensures Run(s, calls).nloops >= s.nloops
    ensures s.nloops > 0 ==> Run(s, calls).startup == s.startup
    decreases |calls|
  {
    if calls != [] {
      StartupLatchedOnce(Apply(s, calls[0]), calls[1..]);
    }
  }

  /** A cycle of well-formed start/stop pairs adds each pair's elapsed time to
      the cycle's time and its tuples to the cycle's count; if the cycle was
      not yet running, the first pair latches the time to first output and
      the first start time. */
  lemma {:induction false} CycleEffect(s: RecordState, c: seq<Interval>)
    requires s.starttime == 0 && Timed(c) && c != []
    ensures Run(s, CycleCalls(c)) ==
      s.(counter := s.counter + Elapsed(c),
         tuplecount := s.tuplecount + Tuples(c),
         running := true,
         firsttuple := if s.running then s.firsttuple else s.counter + (c[0].stop - c[0].start),
         firststart := if s.running then s.firststart else c[0].start)
    decreases |c|
  {
    var s0 := Start(s, c[0].start);
    var s1 := Stop(s0, c[0].tuples, c[0].stop);
    var pair := [StartCall(c[0].start), StopCall(c[0].tuples, c[0].stop)];
    assert Run(s, pair) == s1 by {
      assert pair[1..] == [pair[1]] && [pair[1]][1..] == [];
      assert Run(s, pair) == Run(s0, [pair[1]]);
      assert Run(s0, [pair[1]]) == Run(s1, []);
    }
    assert CycleCalls(c) == pair + CycleCalls(c[1..]);
    RunAppend(s, pair, CycleCalls(c[1..]));
    if c[1..] != [] {
      assert Timed(c[1..]) by {
        forall k | 0 <= k < |c[1..]| ensures c[1..][k].start != 0 {
          assert c[1..][k] == c[k + 1];
        }
      }
      CycleEffect(s1, c[1..]);
    } else {
      assert CycleCalls(c[1..]) == [];
    }
  }

  /** Totals are sums over completed cycles: after a series of cycles, each a
      non-empty sequence of well-formed start/stop pairs closed by EndLoop,
      the lifetime time and tuple count have grown by the sums over all
      cycles, the loop count by the number of cycles, the startup time is the
      first cycle's time to first output if no cycle had completed before,
      and the record is back at a cycle boundary. */
  lemma {:induction false} RescanTotals(s: RecordState, cs: seq<seq<Interval>>)
    requires AtBoundary(s)
    requires forall j :: 0 <= j < |cs| ==> cs[j] != [] && Timed(cs[j])
    ensures AtBoundary(Run(s, RescanCalls(cs)))
    ensures Run(s, RescanCalls(cs)).total == s.total + TotalElapsed(cs)
    ensures Run(s, RescanCalls(cs)).ntuples == s.ntuples + TotalTuples(cs)
    ensures Run(s, RescanCalls(cs)).nloops == s.nloops + |cs|
    ensures Run(s, RescanCalls(cs)).startup ==
      if s.nloops == 0 && cs != [] then cs[0][0].stop - cs[0][0].start else s.startup
    decreases |cs|
  {
    if cs != [] {
      var c := cs[0];
      var mid := Run(s, CycleCalls(c));
      CycleEffect(s, c);
      RunAppend(s, CycleCalls(c), [EndLoopCall]);
      RunAppend(s, CycleCalls(c) + [EndLoopCall], RescanCalls(cs[1..]));
      assert RescanCalls(cs) == CycleCalls(c) + [EndLoopCall] + RescanCalls(cs[1..]);
      var next := EndLoop(mid);
      assert Run(mid, [EndLoopCall]) == next;
      assert forall j :: 0 <= j < |cs[1..]| ==> cs[1..][j] == cs[j + 1];
      RescanTotals(next, cs[1..]);
    }
  }

  /** The record as the source keeps it: the state machine's fields, the
      residency flag, and the arena slot the record is embedded in (its
      address, which InstrFree turns back into a slot pointer), or Private. */
  class Instrumentation {
    var starttime: int
    var counter: int
    var running: bool
    var firsttuple: int
    var firststart: int
    var tuplecount: int
    var startup: int
    var total: int
    var ntuples: int
    var nloops: nat
    var inShmem: bool
    const slot: int

    ghost function State(): RecordState
      reads this
    {
      RecordState(starttime, counter, running, firsttuple, firststart,
                  tuplecount, startup, total, ntuples, nloops)
    }

    /** Every field of the record is zero (the residency flag included). */
    ghost predicate IsZero()
      reads this
    {
      State() == Zeroed && !inShmem
    }

    /** A zero-filled record living at `slot`. */
    constructor (slot: int)
      ensures IsZero() && this.slot == slot
    {
      this.slot := slot;
      starttime, counter, running, firsttuple, firststart := 0, 0, false, 0, 0;
      tuplecount, startup, total, ntuples, nloops := 0, 0, 0, 0, 0;
      inShmem := false;
    }

    /** Fill the record with zeroes (the record's part of the slot MemSet). */
    method Clear()
      modifies this
      ensures IsZero()
    {
      starttime, counter, running, firsttuple, firststart := 0, 0, false, 0, 0;
      tuplecount, startup, total, ntuples, nloops := 0, 0, 0, 0, 0;
      inShmem := false;
    }

    /** InstrStartNode. `twice` reports the "called twice in a row" diagnostic. */
    method InstrStartNode(now: int) returns (twice: bool)
      modifies this
      ensures State() == Start(old(State()), now)
      ensures inShmem == old(inShmem)
      ensures twice <==> old(starttime) != 0
    {
      if starttime == 0 {
        starttime := now;
        twice := false;
      } else {
        twice := true;
      }
    }

    /** InstrStopNode. `withoutStart` reports the "called without start" diagnostic. */
    method InstrStopNode(n: int, now: int) returns (withoutStart: bool)
      modifies this
      ensures State() == Stop(old(State()), n, now)
      ensures inShmem == old(inShmem)
      ensures withoutStart <==> old(starttime) == 0
    {
      tuplecount := tuplecount + n;
      if starttime == 0 {
        withoutStart := true;
        return;
      }
      withoutStart := false;
      counter := counter + (now - starttime);
      if !running {
        running := true;
        firsttuple := counter;
        firststart := starttime;
      }
      starttime := 0;
    }

    /** InstrEndLoop. `stillRunning` reports the "called on running node" diagnostic. */
    method InstrEndLoop() returns (stillRunning: bool)
      modifies this
      ensures State() == EndLoop(old(State()))
      ensures inShmem == old(inShmem)
      ensures stillRunning <==> old(running) && old(starttime) != 0
    {
      stillRunning := false;
      if !running {
        return;
      }
      if starttime != 0 {
        stillRunning := true;
      }
      var totaltime := counter;
      if nloops == 0 {
        startup := firsttuple;
      }
      total := total + totaltime;
      ntuples := ntuples + tuplecount;
      nloops := nloops + 1;
      running := false;
      starttime := 0;
      counter := 0;
      firsttuple := 0;
      tuplecount := 0;
    }
  }
}
