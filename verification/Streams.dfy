/** The duplex stream multiplexer: locked stream records and the write loops that borrow their write halves. */
module Streams {

  import opened Common

  type Bytes = seq<bv8>

  /** The write end of a stream's pipe; it is moved, never copied. */
  datatype WriteHalf = WriteHalf

  datatype StreamRec = StreamRec(write: Option<WriteHalf>, q: seq<Bytes>, ended: bool)

  datatype Phase = Locking | Writing | ShuttingDown

  /** A running write loop. `items` is what it took from the queue and has not delivered yet. */
  datatype Loop = Loop(phase: Phase, items: seq<Bytes>)

  datatype Pipe = Pipe(delivered: Bytes, failed: bool)

  /** One stream: its record in the map, the tasks that hold its write half, its pipe, and what an observer counts. */
  datatype Stream = Stream(
    rec: Option<StreamRec>,
    loops: seq<Loop>,
    closers: nat,      // remove calls that are shutting the half down
    pipe: Pipe,
    accepted: Bytes,   // every buffer pushed to the queue so far
    shutdowns: nat)    // halves shut down

  function Flatten(items: seq<Bytes>): Bytes {
    if items == [] then [] else items[0] + Flatten(items[1..])
  }

  lemma {:induction false} FlattenAppend(items: seq<Bytes>, item: Bytes)
    ensures Flatten(items + [item]) == Flatten(items) + item
    decreases |items|
  {
    if items == [] {
      assert [item][1..] == [];
    } else {
      assert (items + [item])[1..] == items[1..] + [item];
      FlattenAppend(items[1..], item);
    }
  }

  /** What is left of the items once n bytes of the first have been written; a finished item is dropped. */
  function Advance(items: seq<Bytes>, n: nat): (rest: seq<Bytes>)
    requires items != [] && n <= |items[0]|
    ensures Flatten(items) == items[0][..n] + Flatten(rest)
  {
    assert items[0] == items[0][..n] + items[0][n..];
    if n == |items[0]| then items[1..] else [items[0][n..]] + items[1..]
  }

  /** One atomic step on one stream: a critical section, a pipe write or a shutdown. `k` names a write loop. */
  datatype Step =
    | Write(buf: Bytes)
    | Remove
    | CloserShutdown
    | LoopLock(k: nat)
    | LoopWrite(k: nat, n: nat)
    | LoopFail(k: nat, n: nat)
    | LoopShutdown(k: nat)

  /** The loop can push n bytes of its current item: a failed pipe takes no more bytes. */
  predicate CanWrite(s: Stream, k: nat, n: nat) {
    && k < |s.loops| && s.loops[k].phase.Writing? && s.loops[k].items != [] && n <= |s.loops[k].items[0]|
    && (n > 0 ==> !s.pipe.failed)
  }

  predicate Enabled(s: Stream, step: Step) {
    match step
    case Write(_) => true
    case Remove => true
    case CloserShutdown => s.closers > 0
    case LoopLock(k) => k < |s.loops| && s.loops[k].phase.Locking?
    case LoopWrite(k, n) => CanWrite(s, k, n)
    case LoopFail(k, n) => CanWrite(s, k, n) && n < |s.loops[k].items[0]|
    case LoopShutdown(k) => k < |s.loops| && s.loops[k].phase.ShuttingDown?
  }

  const FRESH := Stream(Some(StreamRec(Some(WriteHalf), [], false)), [], 0, Pipe([], false), [], 0)

  function WriteStep(s: Stream, buf: Bytes): Stream {
    if s.rec.None? then s
    else
      var rec := s.rec.value;
      s.(rec := Some(StreamRec(None, rec.q + [buf], rec.ended)),
         loops := if rec.write.Some? then s.loops + [Loop(Locking, [])] else s.loops,
         accepted := s.accepted + buf)
  }

  function RemoveStep(s: Stream): Stream {
    if s.rec.None? then s
    else if s.rec.value.write.Some? then s.(rec := None, closers := s.closers + 1)
    else s.(rec := Some(s.rec.value.(ended := true)))
  }

  function Without(loops: seq<Loop>, k: nat): (rest: seq<Loop>)
    requires k < |loops|
    ensures |rest| == |loops| - 1
  {
    loops[..k] + loops[k + 1..]
  }

  function LoopLockStep(s: Stream, k: nat): Stream
    requires k < |s.loops|
  {
    if s.rec.None? then s.(loops := s.loops[k := s.loops[k].(phase := ShuttingDown)])
    else
      var rec := s.rec.value;
      if rec.q != [] then
        s.(rec := Some(rec.(q := s.loops[k].items)), loops := s.loops[k := Loop(Writing, rec.q)])
      else if rec.ended then
        s.(rec := None, loops := s.loops[k := s.loops[k].(phase := ShuttingDown)])
      else
        s.(rec := Some(rec.(write := Some(WriteHalf))), loops := Without(s.loops, k))
  }

  /** n bytes of the current item reach the pipe; `items` is what the loop still holds. */
  function Deliver(s: Stream, k: nat, n: nat, items: seq<Bytes>, failed: bool): Stream
    requires CanWrite(s, k, n)
  {
    s.(pipe := Pipe(s.pipe.delivered + s.loops[k].items[0][..n], s.pipe.failed || failed),
       loops := s.loops[k := Loop(if items == [] then Locking else Writing, items)])
  }

  function Next(s: Stream, step: Step): Stream
    requires Enabled(s, step)
  {
    match step
    case Write(buf) => WriteStep(s, buf)
    case Remove => RemoveStep(s)
    case CloserShutdown => s.(closers := s.closers - 1, shutdowns := s.shutdowns + 1)
    case LoopLock(k) => LoopLockStep(s, k)
    case LoopWrite(k, n) => Deliver(s, k, n, Advance(s.loops[k].items, n), false)
    case LoopFail(k, n) => Deliver(s, k, n, [], true)
    case LoopShutdown(k) => s.(loops := Without(s.loops, k), shutdowns := s.shutdowns + 1)
  }

  // ---- the invariant ----

  function Holds(rec: Option<StreamRec>): nat {
    if rec.Some? && rec.value.write.Some? then 1 else 0
  }

  /** How many places own the write half. */
  function Owners(s: Stream): nat {
    Holds(s.rec) + |s.loops| + s.closers + s.shutdowns
  }

  ghost function InFlight(s: Stream): Bytes {
    if s.loops == [] then [] else Flatten(s.loops[0].items)
  }

  ghost function Queued(s: Stream): Bytes {
    if s.rec.None? then [] else Flatten(s.rec.value.q)
  }

  /** Delivered, then in flight, then queued is exactly what was accepted; after a failure, delivered is a prefix. */
  ghost predicate InOrder(s: Stream) {
    if s.pipe.failed then s.pipe.delivered <= s.accepted
    else s.accepted == s.pipe.delivered + InFlight(s) + Queued(s)
  }

  ghost predicate LoopOk(s: Stream) {
    s.loops != [] ==>
      var loop := s.loops[0];
      && (loop.items != [] <==> loop.phase.Writing?)
      && (loop.phase.ShuttingDown? <==> s.rec.None?)
  }

  ghost predicate Inv(s: Stream) {
    && Owners(s) == 1 && InOrder(s) && LoopOk(s)
    && (Holds(s.rec) == 1 ==> s.rec.value.q == [] && !s.rec.value.ended)
    && (s.rec.Some? ==> Holds(s.rec) == 1 || s.loops != [])
  }

  lemma FreshOk()
    ensures Inv(FRESH)
  {
  }

  lemma WriteKeeps(s: Stream, buf: Bytes)
    requires Inv(s)
    ensures Inv(WriteStep(s, buf))
  {
    if s.rec.Some? {
      FlattenAppend(s.rec.value.q, buf);
      var t := WriteStep(s, buf);
      if !s.pipe.failed {
        assert s.pipe.delivered + InFlight(s) + Queued(s) + buf == t.pipe.delivered + InFlight(t) + Queued(t);
      }
    }
  }

  lemma LockKeeps(s: Stream, k: nat)
    requires Inv(s) && Enabled(s, LoopLock(k))
    ensures Inv(LoopLockStep(s, k))
  {
  }

  lemma NothingToFlatten()
    ensures Flatten([]) == []
  {
  }

  lemma DeliverKeeps(s: Stream, k: nat, n: nat)
    requires Inv(s) && Enabled(s, LoopWrite(k, n))
    ensures Inv(Next(s, LoopWrite(k, n)))
  {
    hide Flatten;
    var items := s.loops[k].items;
    var t := Next(s, LoopWrite(k, n));
    var rest := Advance(items, n);
    NothingToFlatten();
    if s.pipe.failed {
      assert n == 0 && t.pipe.delivered == s.pipe.delivered;
    } else {
      assert s.pipe.delivered + (items[0][..n] + Flatten(rest)) == s.pipe.delivered + items[0][..n] + Flatten(rest);
      assert t.pipe.delivered + InFlight(t) == s.pipe.delivered + InFlight(s);
    }
  }

  lemma FailKeeps(s: Stream, k: nat, n: nat)
    requires Inv(s) && Enabled(s, LoopFail(k, n))
    ensures Inv(Next(s, LoopFail(k, n)))
  {
  }

  /** Every atomic step of every task keeps the invariant. */
  lemma StepKeeps(s: Stream, step: Step)
    requires Inv(s) && Enabled(s, step)
    ensures Inv(Next(s, step))
  {
    match step
    case Write(buf) => WriteKeeps(s, buf);
    case Remove =>
    case CloserShutdown =>
    case LoopLock(k) => LockKeeps(s, k);
    case LoopWrite(k, n) => DeliverKeeps(s, k, n);
    case LoopFail(k, n) => FailKeeps(s, k, n);
    case LoopShutdown(k) =>
  }

  // ---- runs ----

  /** An interleaving: steps of any tasks in any order, as long as each can happen when its turn comes. */
  ghost predicate IsRun(s: Stream, steps: seq<Step>)
    decreases |steps|
  {
    steps == [] || (Enabled(s, steps[0]) && IsRun(Next(s, steps[0]), steps[1..]))
  }

  ghost function After(s: Stream, steps: seq<Step>): Stream
    requires IsRun(s, steps)
    decreases |steps|
  {
    if steps == [] then s else After(Next(s, steps[0]), steps[1..])
  }

  lemma {:induction false} RunKeeps(s: Stream, steps: seq<Step>)
    requires Inv(s) && IsRun(s, steps)
    ensures Inv(After(s, steps))
    decreases |steps|
  {
    if steps != [] {
      StepKeeps(s, steps[0]);
      RunKeeps(Next(s, steps[0]), steps[1..]);
    }
  }

  /** What one step adds to the accepted bytes: a buffer pushed while the record exists. */
  ghost function Accepts(s: Stream, step: Step): Bytes {
    if step.Write? && s.rec.Some? then step.buf else []
  }

  ghost function AcceptedBy(s: Stream, steps: seq<Step>): Bytes
    requires IsRun(s, steps)
    decreases |steps|
  {
    if steps == [] then [] else Accepts(s, steps[0]) + AcceptedBy(Next(s, steps[0]), steps[1..])
  }

  lemma AcceptsOne(s: Stream, step: Step)
    requires Enabled(s, step)
    ensures Next(s, step).accepted == s.accepted + Accepts(s, step)
  {
  }

  lemma {:induction false} AcceptedInOrder(s: Stream, steps: seq<Step>)
    requires IsRun(s, steps)
    ensures After(s, steps).accepted == s.accepted + AcceptedBy(s, steps)
    decreases |steps|
  {
    hide Next, Enabled, Accepts;
    if steps == [] {
      assert s.accepted + [] == s.accepted;
    } else {
      var t := Next(s, steps[0]);
      AcceptsOne(s, steps[0]);
      AcceptedInOrder(t, steps[1..]);
      assert s.accepted + (Accepts(s, steps[0]) + AcceptedBy(t, steps[1..])) == t.accepted + AcceptedBy(t, steps[1..]);
    }
  }

  // ---- what a run accepts, and when its pipe has failed ----

  ghost predicate SomeFail(steps: seq<Step>) {
    exists i :: 0 <= i < |steps| && steps[i].LoopFail?
  }

  /** The pipe has failed exactly if some write of the run failed. */
  lemma {:induction false} FailedExactly(s: Stream, steps: seq<Step>)
    requires IsRun(s, steps)
    ensures After(s, steps).pipe.failed <==> s.pipe.failed || SomeFail(steps)
    decreases |steps|
  {
    if steps != [] {
      FailedExactly(Next(s, steps[0]), steps[1..]);
      if SomeFail(steps[1..]) {
        var i :| 0 <= i < |steps[1..]| && steps[1..][i].LoopFail?;
        assert steps[i + 1].LoopFail?;
      }
      forall i | 1 <= i < |steps| && steps[i].LoopFail? ensures SomeFail(steps[1..]) {
        assert steps[1..][i - 1].LoopFail?;
      }
    }
  }

  /** Every buffer of the write calls, in order. */
  function Written(steps: seq<Step>): Bytes {
    if steps == [] then [] else (if steps[0].Write? then steps[0].buf else []) + Written(steps[1..])
  }

  /** Until a stream is ended its record stays, so that everything written is accepted. */
  lemma {:induction false} AllAccepted(s: Stream, steps: seq<Step>)
    requires Inv(s) && !Ended(s) && IsRun(s, steps) && Remove !in steps
    ensures !Ended(After(s, steps)) && AcceptedBy(s, steps) == Written(steps)
    decreases |steps|
  {
    hide Inv;
    if steps != [] {
      StepKeeps(s, steps[0]);
      StaysOpen(s, steps[0]);
      AllAccepted(Next(s, steps[0]), steps[1..]);
    }
  }

  lemma StaysOpen(s: Stream, step: Step)
    requires Inv(s) && !Ended(s) && Enabled(s, step) && !step.Remove?
    ensures !Ended(Next(s, step))
  {
  }

  /** Over every interleaving from a new stream: bytes arrive in the order they were accepted, none lost or repeated;
      the half has one owner; a queue never waits without a loop; a half is shut down at most once, and, unless the pipe
      failed, only after everything accepted was delivered. */
  lemma EveryInterleaving(steps: seq<Step>)
    requires IsRun(FRESH, steps)
    ensures
      var s := After(FRESH, steps);
      && s.accepted == AcceptedBy(FRESH, steps)
      && s.pipe.delivered <= s.accepted && (s.pipe.failed <==> SomeFail(steps))
      && (!s.pipe.failed ==> s.accepted == s.pipe.delivered + InFlight(s) + Queued(s))
      && Owners(s) == 1 && s.shutdowns <= 1
      && (s.rec.Some? && s.rec.value.q != [] ==> |s.loops| == 1)
      && (s.closers > 0 || s.shutdowns > 0 ==> s.rec.None? && (s.pipe.failed || s.pipe.delivered == s.accepted))
  {
    FreshOk();
    RunKeeps(FRESH, steps);
    AcceptedInOrder(FRESH, steps);
    FailedExactly(FRESH, steps);
    var s := After(FRESH, steps);
    if !s.pipe.failed {
      assert s.accepted == s.pipe.delivered + (InFlight(s) + Queued(s));
    }
  }

  /** Once no task is running, everything accepted has been delivered and a stream that was ended is shut down. */
  lemma Quiescent(steps: seq<Step>)
    requires IsRun(FRESH, steps)
    requires After(FRESH, steps).loops == [] && After(FRESH, steps).closers == 0
    ensures
      var s := After(FRESH, steps);
      && (s.pipe.failed || s.pipe.delivered == s.accepted)
      && (s.rec.None? <==> s.shutdowns == 1) && (Remove in steps ==> s.shutdowns == 1)
  {
    FreshOk();
    RunKeeps(FRESH, steps);
    if Remove in steps { EndedStaysEnded(FRESH, steps); }
  }

  ghost predicate Ended(s: Stream) {
    s.rec.None? || s.rec.value.ended
  }

  lemma {:induction false} EndedStaysEnded(s: Stream, steps: seq<Step>)
    requires Inv(s) && IsRun(s, steps) && (Ended(s) || Remove in steps)
    ensures Ended(After(s, steps))
    decreases |steps|
  {
    if steps != [] {
      StepKeeps(s, steps[0]);
      EndedStaysEnded(Next(s, steps[0]), steps[1..]);
    }
  }

  // ---- progress ----

  /** Bytes and items still to be written. */
  function Cost(items: seq<Bytes>): nat {
    if items == [] then 0 else |items[0]| + 1 + Cost(items[1..])
  }

  lemma AdvanceCosts(items: seq<Bytes>, n: nat)
    requires items != [] && n <= |items[0]| && (n > 0 || items[0] == [])
    ensures Cost(Advance(items, n)) < Cost(items)
  {
    if n < |items[0]| { assert ([items[0][n..]] + items[1..])[1..] == items[1..]; }
  }

  /** What the tasks of a stream still have to do; queued buffers pass through a loop's hands. */
  ghost function Work(s: Stream): nat {
    var held := if s.loops == [] then 0 else Cost(s.loops[0].items);
    var queued := if s.rec.None? then 0 else Cost(s.rec.value.q);
    var phase := if s.loops == [] then 0 else if s.loops[0].phase.ShuttingDown? then 1 else 2;
    held + 2 * queued + phase + s.closers
  }

  /** A step of a running task that gets somewhere: not a new call, and not a write of nothing. */
  predicate IsProgress(s: Stream, step: Step) {
    Enabled(s, step) && !step.Write? && !step.Remove? && (step.LoopWrite? ==> step.n > 0 || s.loops[step.k].items[0] == [])
  }

  /** Every such step, a pipe failure included, leaves less to do. */
  lemma ProgressWorks(s: Stream, step: Step)
    requires Inv(s) && IsProgress(s, step)
    ensures Work(Next(s, step)) < Work(s)
  {
    hide InOrder;
    match step
    case CloserShutdown =>
    case LoopLock(k) =>
    case LoopWrite(k, n) => AdvanceCosts(s.loops[k].items, n);
    case LoopFail(k, n) =>
    case LoopShutdown(k) =>
  }

  /** Whenever a task is running, some step gets it further; no failure is needed while the pipe works. */
  lemma CanProgress(s: Stream) returns (step: Step)
    requires Inv(s) && (s.loops != [] || s.closers > 0)
    ensures IsProgress(s, step) && (step.LoopFail? ==> s.pipe.failed)
  {
    if s.closers > 0 {
      return CloserShutdown;
    }
    match s.loops[0].phase
    case Locking => return LoopLock(0);
    case ShuttingDown => return LoopShutdown(0);
    case Writing =>
      if !s.pipe.failed || s.loops[0].items[0] == [] {
        return LoopWrite(0, |s.loops[0].items[0]|);
      }
      return LoopFail(0, 0);
  }

  ghost predicate AllProgress(s: Stream, steps: seq<Step>)
    decreases |steps|
  {
    steps == [] || (IsProgress(s, steps[0]) && AllProgress(Next(s, steps[0]), steps[1..]))
  }

  /** Once no more calls arrive, every schedule of such steps is short, and one that cannot go on has left no task. */
  lemma {:induction false} EverySchedule(s: Stream, steps: seq<Step>)
    requires Inv(s) && AllProgress(s, steps)
    ensures IsRun(s, steps) && Inv(After(s, steps)) && |steps| <= Work(s) - Work(After(s, steps))
    ensures (forall step :: !IsProgress(After(s, steps), step)) ==> After(s, steps).loops == [] && After(s, steps).closers == 0
    decreases |steps|
  {
    hide Inv, Next, Work, IsProgress;
    if steps == [] {
      if s.loops != [] || s.closers > 0 { var step := CanProgress(s); }
    } else {
      assert Enabled(s, steps[0]) by { ProgressIsEnabled(s, steps[0]); }
      StepKeeps(s, steps[0]);
      ProgressWorks(s, steps[0]);
      EverySchedule(Next(s, steps[0]), steps[1..]);
    }
  }

  lemma ProgressIsEnabled(s: Stream, step: Step)
    requires IsProgress(s, step)
    ensures Enabled(s, step)
  {
  }

  lemma {:induction false} RunAppend(s: Stream, a: seq<Step>, b: seq<Step>)
    requires IsRun(s, a) && IsRun(After(s, a), b)
    ensures IsRun(s, a + b) && After(s, a + b) == After(After(s, a), b)
    decreases |a|
  {
    hide Next, Enabled;
    if a == [] {
      assert a + b == b;
    } else {
      assert (a + b)[1..] == a[1..] + b;
      RunAppend(Next(s, a[0]), a[1..], b);
    }
  }

  /** After any interleaving, letting the running tasks go on as long as they can ends, within the work at hand. If no
      write failed, the pipe has then received every buffer written while the record existed, in order; which is every
      buffer written, if the stream was never ended. An ended stream is shut down exactly once. */
  lemma EventuallyQuiescent(steps: seq<Step>, rest: seq<Step>)
    requires IsRun(FRESH, steps) && AllProgress(After(FRESH, steps), rest)
    requires IsRun(After(FRESH, steps), rest) && forall step :: !IsProgress(After(After(FRESH, steps), rest), step)
    ensures |rest| <= Work(After(FRESH, steps)) && IsRun(FRESH, steps + rest)
    ensures
      var s := After(FRESH, steps + rest);
      && s.loops == [] && s.closers == 0 && s.pipe.delivered <= AcceptedBy(FRESH, steps + rest)
      && (!SomeFail(steps) && !SomeFail(rest) ==> s.pipe.delivered == AcceptedBy(FRESH, steps + rest))
      && (!SomeFail(steps) && !SomeFail(rest) && Remove !in steps ==> s.pipe.delivered == Written(steps) && s.shutdowns == 0)
      && (Remove in steps ==> s.shutdowns == 1)
  {
    hide Inv, Next, Work, IsProgress, Enabled;
    FreshOk();
    RunKeeps(FRESH, steps);
    EverySchedule(After(FRESH, steps), rest);
    RunAppend(FRESH, steps, rest);
    Quiescent(steps + rest);
    EveryInterleaving(steps + rest);
    FailedExactly(FRESH, steps);
    FailedExactly(After(FRESH, steps), rest);
    NoNewCalls(After(FRESH, steps), rest);
    WrittenAppend(steps, rest);
    if Remove !in steps {
      AllAccepted(FRESH, steps + rest);
    }
  }

  lemma {:induction false} NoNewCalls(s: Stream, steps: seq<Step>)
    requires AllProgress(s, steps)
    ensures Remove !in steps && Written(steps) == []
    decreases |steps|
  {
    if steps != [] { NoNewCalls(Next(s, steps[0]), steps[1..]); }
  }

  lemma {:induction false} WrittenAppend(a: seq<Step>, b: seq<Step>)
    ensures Written(a + b) == Written(a) + Written(b)
    decreases |a|
  {
    if a == [] {
      assert a + b == b;
    } else {
      assert (a + b)[1..] == a[1..] + b;
      WrittenAppend(a[1..], b);
    }
  }

  // ---- the mutable multiplexer ----

  class Multiplexer {
    var streams: map<nat, Stream>

    ghost predicate Valid() reads this {
      forall id :: id in streams ==> Inv(streams[id])
    }

    constructor ()
      ensures Valid() && streams == map[]
    {
      streams := map[];
    }

    /** Registers the write half of a new stream; ids are not reused. */
    method Insert(id: nat)
      requires Valid() && id !in streams
      modifies this
      ensures Valid() && streams == old(streams)[id := FRESH]
    {
      FreshOk();
      streams := streams[id := Stream(Some(StreamRec(Some(WriteHalf), [], false)), [], 0, Pipe([], false), [], 0)];
    }

    /** Queues a buffer under the lock and starts a write loop if the half is at home. */
    method Write(id: nat, buf: Bytes)
      requires Valid()
      modifies this
      ensures Valid()
      ensures streams == if id in old(streams) then old(streams)[id := Next(old(streams)[id], Step.Write(buf))] else old(streams)
    {
      if id in streams && streams[id].rec.Some? {
        StepKeeps(streams[id], Step.Write(buf));
        var s := streams[id];
        var rec := s.rec.value;
        rec := rec.(q := rec.q + [buf]);
        if rec.write.Some? {
          rec := rec.(write := None);
          s := s.(loops := s.loops + [Loop(Locking, [])]);
        }
        streams := streams[id := s.(rec := Some(rec), accepted := s.accepted + buf)];
      }
    }

    /** Ends a stream under the lock: takes the half away if it is at home, otherwise leaves the shutdown to the loop. */
    method Remove(id: nat)
      requires Valid()
      modifies this
      ensures Valid()
      ensures streams == if id in old(streams) then old(streams)[id := Next(old(streams)[id], Step.Remove)] else old(streams)
    {
      if id in streams && streams[id].rec.Some? {
        StepKeeps(streams[id], Step.Remove);
        var s := streams[id];
        var rec := s.rec.value;
        if rec.write.Some? {
          streams := streams[id := s.(rec := None, closers := s.closers + 1)];
        } else {
          streams := streams[id := s.(rec := Some(rec.(ended := true)))];
        }
      }
    }

    /** The write loop run to its end with a pipe that takes every byte: it stops, having delivered everything accepted,
        and leaves the half in the record or, if the stream was ended, shut down. */
    method WriteLoop(id: nat)
      requires Valid() && id in streams && streams[id].loops != [] && !streams[id].pipe.failed
      modifies this
      ensures Valid() && streams.Keys == old(streams.Keys)
      ensures forall x :: x in streams && x != id ==> streams[x] == old(streams)[x]
      ensures streams[id].loops == [] && streams[id].accepted == old(streams)[id].accepted
      ensures streams[id].pipe == Pipe(streams[id].accepted, false)
      ensures if Ended(old(streams)[id]) then streams[id].rec.None? && streams[id].shutdowns == 1
              else streams[id].rec == Some(StreamRec(Some(WriteHalf), [], false))
    {
      var s := streams[id];
      while !s.loops[0].phase.ShuttingDown?
        invariant streams == old(streams) && Inv(s) && s.loops != [] && !s.pipe.failed
        invariant s.accepted == old(streams)[id].accepted && (Ended(s) <==> Ended(old(streams)[id]))
        decreases Work(s)
      {
        if s.loops[0].phase.Locking? {
          StepKeeps(s, LoopLock(0));
          ProgressWorks(s, LoopLock(0));
          if s.rec.value.q == [] && !s.rec.value.ended {
            streams := streams[id := LoopLockStep(s, 0)];
            return;
          }
          s := LoopLockStep(s, 0);
        } else {
          var n := |s.loops[0].items[0]|;
          StepKeeps(s, LoopWrite(0, n));
          ProgressWorks(s, LoopWrite(0, n));
          s := Deliver(s, 0, n, s.loops[0].items[1..], false);
        }
      }
      StepKeeps(s, LoopShutdown(0));
      streams := streams[id := s.(loops := [], shutdowns := s.shutdowns + 1)];
    }
  }
}
