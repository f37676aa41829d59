/** The federation auditor of internal/federation/audit.go: callers put entries
    into a bounded channel without waiting, one worker takes them out in batches
    and tries to persist each. The worker and the callers interleave freely. */
module AuditQueue {
  const QueueSize := 256

  type Entry = int

  /** Where the worker is: waiting; collecting the entries that are there;
      writing a batch, and what follows it; draining on a tick or, finally, on
      shutdown; gone. */
  datatype Phase = Waiting | Collecting | Writing(flushing: bool, final: bool) | Flushing(final: bool) | Exited

  /** `accepted` lists all entries ever put into the channel and `attempted` all
      entries ever handed to the database. `atClose` counts those accepted when
      Close was called. */
  datatype State = State(
    queue: seq<Entry>, batch: seq<Entry>, phase: Phase, closed: bool,
    accepted: seq<Entry>, attempted: seq<Entry>, dropped: nat, recorded: nat, atClose: nat)

  datatype Event =
    | Record(e: Entry) | Close
    | Tick | Stop | Receive | CollectMore | CollectEnd | Persist | FlushTake | FlushEnd

  predicate Enabled(s: State, ev: Event) {
    match ev
    case Record(_) => true
    case Close => true
    case Tick => s.phase == Waiting
    case Stop => s.phase == Waiting && s.closed
    case Receive => s.phase == Waiting && s.queue != []
    case CollectMore => s.phase == Collecting && |s.batch| < QueueSize && s.queue != []
    case CollectEnd => s.phase == Collecting && (|s.batch| >= QueueSize || s.queue == [])
    case Persist => s.phase.Writing? && s.batch != []
    case FlushTake => s.phase.Flushing? && s.queue != []
    case FlushEnd => s.phase.Flushing? && s.queue == []
  }

  function Next(s: State, ev: Event): State
    requires Enabled(s, ev)
  {
    match ev
    case Record(e) =>
      if |s.queue| < QueueSize
      then s.(queue := s.queue + [e], accepted := s.accepted + [e], recorded := s.recorded + 1)
      else s.(dropped := s.dropped + 1, recorded := s.recorded + 1)
    case Close => if s.closed then s else s.(closed := true, atClose := |s.accepted|)
    case Tick => s.(phase := Flushing(false))
    case Stop => s.(phase := Flushing(true))
    case Receive => s.(queue := s.queue[1..], batch := [s.queue[0]], phase := Collecting)
    case CollectMore => s.(queue := s.queue[1..], batch := s.batch + [s.queue[0]])
    case CollectEnd => s.(phase := Writing(false, false))
    case Persist =>
      s.(attempted := s.attempted + [s.batch[0]], batch := s.batch[1..],
         phase := if |s.batch| > 1 then s.phase else if s.phase.flushing then Flushing(s.phase.final) else Waiting)
    case FlushTake => s.(queue := s.queue[1..], batch := [s.queue[0]], phase := Writing(true, s.phase.final))
    case FlushEnd => s.(phase := if s.phase.final then Exited else Waiting)
  }

  predicate Runs(s: State, evs: seq<Event>)
    decreases |evs|
  {
    evs == [] || (Enabled(s, evs[0]) && Runs(Next(s, evs[0]), evs[1..]))
  }

  function After(s: State, evs: seq<Event>): State
    requires Runs(s, evs)
    decreases |evs|
  {
    if evs == [] then s else After(Next(s, evs[0]), evs[1..])
  }

  const Initial := State([], [], Waiting, false, [], [], 0, 0, 0)

  // ---- Conservation ----

  ghost predicate Conserved(s: State) {
    && s.accepted == s.attempted + s.batch + s.queue
    && s.recorded == |s.attempted| + |s.batch| + |s.queue| + s.dropped
    && |s.queue| <= QueueSize && |s.batch| <= QueueSize
    && (s.phase.Collecting? || s.phase.Writing? <==> s.batch != [])
    && s.atClose <= |s.accepted|
    && (s.phase == Exited || s.phase == Flushing(true) ==> s.closed)
    && (s.phase.Writing? && s.phase.final ==> s.closed && s.phase.flushing)
    && (s.phase == Exited ==> s.atClose <= |s.attempted|)
  }

  lemma OneMoved(a: seq<Entry>, b: seq<Entry>, c: seq<Entry>)
    requires c != []
    ensures a + b + c == a + (b + [c[0]]) + c[1..]
  {
    assert c == [c[0]] + c[1..];
  }

  /** A step keeps the three lists together, or adds the recorded entry. */
  lemma StepKeepsOrder(s: State, ev: Event)
    requires Conserved(s) && Enabled(s, ev)
    ensures var s' := Next(s, ev); s'.accepted == s'.attempted + s'.batch + s'.queue
    ensures s.attempted <= Next(s, ev).attempted
  {
    match ev {
      case Receive => OneMoved(s.attempted, s.batch, s.queue);
      case CollectMore => OneMoved(s.attempted, s.batch, s.queue);
      case FlushTake => OneMoved(s.attempted, s.batch, s.queue);
      case Persist => OneMoved([], s.attempted, s.batch);
      case Record(e) => assert s.attempted + s.batch + s.queue + [e] == s.attempted + s.batch + (s.queue + [e]);
      case _ =>
    }
  }

  lemma StepConserves(s: State, ev: Event)
    requires Conserved(s) && Enabled(s, ev)
    ensures Conserved(Next(s, ev))
    ensures s.attempted <= Next(s, ev).attempted
  {
    StepKeepsOrder(s, ev);
  }

  /** Under every interleaving: what was recorded is what was attempted, dropped,
      queued or is in the batch, and the three lists together are the accepted
      entries in order. So entries are attempted in the order they were queued,
      none twice, and none is lost but those dropped on a full queue. */
  lemma {:induction false} RunConserves(s: State, evs: seq<Event>)
    requires Conserved(s) && Runs(s, evs)
    ensures Conserved(After(s, evs))
    ensures s.attempted <= After(s, evs).attempted
    decreases |evs|
  {
    if evs != [] {
      StepConserves(s, evs[0]);
      RunConserves(Next(s, evs[0]), evs[1..]);
    }
  }

  /** An entry is dropped only when the queue is full. */
  lemma DropsOnlyWhenFull(s: State, ev: Event)
    requires Conserved(s) && Enabled(s, ev)
    ensures Next(s, ev).dropped > s.dropped <==> ev.Record? && |s.queue| == QueueSize
    ensures ev.Record? && |s.queue| < QueueSize ==> Next(s, ev).accepted == s.accepted + [ev.e]
  {
  }

  // ---- Shutdown ----

  /** When Close has returned, the entries accepted before it are attempted, each
      exactly once and in order. */
  lemma CloseDrains(evs: seq<Event>)
    requires Runs(Initial, evs) && After(Initial, evs).phase == Exited
    ensures var s := After(Initial, evs);
      s.closed && s.atClose <= |s.accepted| && s.accepted[..s.atClose] <= s.attempted <= s.accepted
  {
    RunConserves(Initial, evs);
  }

  /** Nothing is attempted once the worker is gone: an entry recorded after that
      is accepted and stays in the queue, or is dropped. */
  lemma {:induction false} NothingAfterExit(s: State, evs: seq<Event>)
    requires Conserved(s) && s.phase == Exited && Runs(s, evs)
    ensures var s' := After(s, evs);
      s'.phase == Exited && s'.attempted == s.attempted && s.queue <= s'.queue
    decreases |evs|
  {
    if evs != [] {
      StepConserves(s, evs[0]);
      NothingAfterExit(Next(s, evs[0]), evs[1..]);
    }
  }

  lemma {:induction false} RunAppend(s: State, a: seq<Event>, b: seq<Event>)
    ensures Runs(s, a + b) <==> Runs(s, a) && Runs(After(s, a), b)
    ensures Runs(s, a + b) ==> After(s, a + b) == After(After(s, a), b)
    decreases |a|
  {
    if a == [] {
      assert a + b == b;
    } else {
      assert (a + b)[1..] == a[1..] + b && (a + b)[0] == a[0];
      if Enabled(s, a[0]) { RunAppend(Next(s, a[0]), a[1..], b); }
    }
  }

  /** Which entries are ever attempted. In a run where the worker exits, the
      attempted entries are exactly those accepted before its exit step, after
      Close or not; the ones accepted later stay in the queue. */
  lemma AttemptedIffBeforeExit(before: seq<Event>, exit: Event, after: seq<Event>)
    requires Runs(Initial, before) && After(Initial, before).phase != Exited
    requires Enabled(After(Initial, before), exit) && Next(After(Initial, before), exit).phase == Exited
    requires Runs(Next(After(Initial, before), exit), after)
    ensures Runs(Initial, before + ([exit] + after))
    ensures
      var end, atExit := After(Initial, before + ([exit] + after)), After(Initial, before);
      end.attempted == atExit.accepted && end.accepted == atExit.accepted + end.queue
  {
    var s := After(Initial, before);
    RunConserves(Initial, before);
    assert ([exit] + after)[1..] == after;
    RunAppend(Initial, before, [exit] + after);
    StepConserves(s, exit);
    NothingAfterExit(Next(s, exit), after);
    RunConserves(Next(s, exit), after);
  }

  const ClosedEarly := [Close, Stop, FlushEnd]

  /** Such a run: the worker exits and an entry is recorded after it. The entry
      is accepted, and whatever happens later it is never attempted. */
  lemma LateEntryIsLost(e: Entry, later: seq<Event>)
    requires Runs(Initial, ClosedEarly + ([Record(e)] + later))
    ensures var end := After(Initial, ClosedEarly + ([Record(e)] + later));
      end.attempted == [] && [e] <= end.accepted && end.dropped + |end.accepted| == end.recorded
  {
    var rest := [Record(e)] + later;
    RunAppend(Initial, ClosedEarly, rest);
    var s := After(Initial, ClosedEarly);
    assert ClosedEarly[1..] == [Stop, FlushEnd] && [Stop, FlushEnd][1..] == [FlushEnd] && [FlushEnd][1..] == [];
    assert s == Initial.(closed := true, phase := Exited);
    var t := Next(s, Record(e));
    assert rest[1..] == later && t.queue == [e];
    NothingAfterExit(t, later);
    RunConserves(t, later);
  }

  // ---- The worker finishes ----

  predicate WorkerStep(ev: Event) { !ev.Record? && !ev.Close? && !ev.Tick? }

  function PhaseWeight(p: Phase): nat {
    match p
    case Waiting => 2
    case Collecting => 3
    case Writing(flushing, final) => if !flushing then 2 else if final then 2 else 3
    case Flushing(final) => if final then 1 else 3
    case Exited => 0
  }

  /** Work left for the worker. */
  function Work(s: State): nat {
    4 * |s.queue| + 2 * |s.batch| + PhaseWeight(s.phase)
  }

  function Count(evs: seq<Event>, p: Event -> bool): nat {
    if evs == [] then 0 else (if p(evs[0]) then 1 else 0) + Count(evs[1..], p)
  }

  function IsWork(): Event -> bool { ev => WorkerStep(ev) }
  function IsRecord(): Event -> bool { (ev: Event) => ev.Record? }
  function IsTick(): Event -> bool { (ev: Event) => ev.Tick? }

  lemma StepIsPaid(s: State, ev: Event)
    requires Conserved(s) && Enabled(s, ev)
    ensures (if WorkerStep(ev) then 1 else 0) + Work(Next(s, ev)) <= Work(s) + (if ev.Record? then 4 else 0) + (if ev.Tick? then 1 else 0)
  {
  }

  /** In every run the worker's steps are paid for by the entries recorded and
      the ticks, so without new ones it cannot go on for ever. */
  lemma {:induction false} WorkerStepsAreBounded(s: State, evs: seq<Event>)
    requires Conserved(s) && Runs(s, evs)
    ensures Count(evs, IsWork()) + Work(After(s, evs)) <= Work(s) + 4 * Count(evs, IsRecord()) + Count(evs, IsTick())
    decreases |evs|
  {
    if evs != [] {
      StepConserves(s, evs[0]);
      StepIsPaid(s, evs[0]);
      WorkerStepsAreBounded(Next(s, evs[0]), evs[1..]);
    }
  }

  /** After Close the worker is never stuck before it has exited; with the bound
      above, Close returns. */
  lemma ClosedWorkerMoves(s: State)
    requires Conserved(s) && s.closed && s.phase != Exited
    ensures exists ev :: WorkerStep(ev) && Enabled(s, ev)
  {
    var ev :=
      match s.phase
      case Waiting => Stop
      case Collecting => if |s.batch| < QueueSize && s.queue != [] then CollectMore else CollectEnd
      case Writing(_, _) => Persist
      case Flushing(_) => if s.queue != [] then FlushTake else FlushEnd;
    assert WorkerStep(ev) && Enabled(s, ev);
  }

  // ---- The loops of the worker, when nothing interleaves ----

  function Times(n: nat, evs: seq<Event>): seq<Event> {
    if n == 0 then [] else evs + Times(n - 1, evs)
  }

  /** The worker's own steps for a batch of `n`, and for draining `n`. */
  function BatchSteps(n: nat): seq<Event>
    requires 0 < n
  {
    [Receive] + (Times(n - 1, [CollectMore]) + ([CollectEnd] + Times(n, [Persist])))
  }

  function DrainSteps(n: nat): seq<Event> { [Tick] + (Times(n, [FlushTake, Persist]) + [FlushEnd]) }

  ghost predicate Leads(s: State, evs: seq<Event>, t: State) { Runs(s, evs) && After(s, evs) == t }

  lemma LeadsOn(s: State, a: seq<Event>, t: State, b: seq<Event>, u: State)
    requires Leads(s, a, t) && Leads(t, b, u)
    ensures Leads(s, a + b, u)
  {
    RunAppend(s, a, b);
  }

  lemma OneStep(s: State, ev: Event)
    requires Enabled(s, ev)
    ensures Leads(s, [ev], Next(s, ev))
  {
    assert [ev][1..] == [];
    assert After(Next(s, ev), []) == Next(s, ev);
  }

  lemma {:induction false} Collects(s: State, n: nat)
    requires s.phase == Collecting && n == |s.queue| && |s.batch| + n <= QueueSize
    ensures Leads(s, Times(n, [CollectMore]), s.(queue := [], batch := s.batch + s.queue))
    decreases n
  {
    if n == 0 {
      assert s.queue == [] && s.batch + s.queue == s.batch;
    } else {
      var t := Next(s, CollectMore);
      OneStep(s, CollectMore);
      Collects(t, n - 1);
      assert t.batch + t.queue == s.batch + s.queue;
      LeadsOn(s, [CollectMore], t, Times(n - 1, [CollectMore]), s.(queue := [], batch := s.batch + s.queue));
    }
  }

  lemma {:induction false} Persists(s: State, n: nat)
    requires s.phase == Writing(false, false) && n == |s.batch| > 0
    ensures Leads(s, Times(n, [Persist]), s.(batch := [], attempted := s.attempted + s.batch, phase := Waiting))
    decreases n
  {
    var goal := s.(batch := [], attempted := s.attempted + s.batch, phase := Waiting);
    var t := Next(s, Persist);
    OneStep(s, Persist);
    assert t.attempted + t.batch == s.attempted + s.batch;
    if n == 1 {
      assert s.batch == [s.batch[0]];
      assert Times(0, [Persist]) == [] && t == goal;
      LeadsOn(s, [Persist], t, [], goal);
    } else {
      Persists(t, n - 1);
      LeadsOn(s, [Persist], t, Times(n - 1, [Persist]), goal);
    }
  }

  /** The steps of the receive branch lead where the branch's loops do. */
  lemma BatchLeads(s: State)
    requires s.phase == Waiting && s.batch == [] && 0 < |s.queue| <= QueueSize
    ensures Leads(s, BatchSteps(|s.queue|), s.(queue := [], attempted := s.attempted + s.queue))
  {
    var n := |s.queue|;
    var goal := s.(queue := [], attempted := s.attempted + s.queue);
    var a := Next(s, Receive);
    OneStep(s, Receive);
    assert a.batch + a.queue == s.queue;
    Collects(a, n - 1);
    var b := a.(queue := [], batch := s.queue);
    OneStep(b, CollectEnd);
    var c := Next(b, CollectEnd);
    Persists(c, n);
    LeadsOn(b, [CollectEnd], c, Times(n, [Persist]), goal);
    LeadsOn(a, Times(n - 1, [CollectMore]), b, [CollectEnd] + Times(n, [Persist]), goal);
    LeadsOn(s, [Receive], a, Times(n - 1, [CollectMore]) + ([CollectEnd] + Times(n, [Persist])), goal);
  }

  lemma {:induction false} Drains(s: State, n: nat)
    requires s.phase == Flushing(false) && s.batch == [] && n == |s.queue|
    ensures Leads(s, Times(n, [FlushTake, Persist]), s.(queue := [], attempted := s.attempted + s.queue))
    decreases n
  {
    var goal := s.(queue := [], attempted := s.attempted + s.queue);
    if n == 0 {
      assert s.queue == [] && s.attempted + s.queue == s.attempted;
    } else {
      var a := Next(s, FlushTake);
      var b := Next(a, Persist);
      OneStep(s, FlushTake);
      OneStep(a, Persist);
      LeadsOn(s, [FlushTake], a, [Persist], b);
      assert [FlushTake] + [Persist] == [FlushTake, Persist];
      assert b.attempted + b.queue == s.attempted + s.queue;
      Drains(b, n - 1);
      LeadsOn(s, [FlushTake, Persist], b, Times(n - 1, [FlushTake, Persist]), goal);
    }
  }

  /** And so do the steps of a flush. */
  lemma DrainLeads(s: State)
    requires s.phase == Waiting && s.batch == []
    ensures Leads(s, DrainSteps(|s.queue|), s.(queue := [], attempted := s.attempted + s.queue))
  {
    var n := |s.queue|;
    var a := Next(s, Tick);
    OneStep(s, Tick);
    Drains(a, n);
    var b := a.(queue := [], attempted := s.attempted + s.queue);
    OneStep(b, FlushEnd);
    var goal := Next(b, FlushEnd);
    LeadsOn(a, Times(n, [FlushTake, Persist]), b, [FlushEnd], goal);
    LeadsOn(s, [Tick], a, Times(n, [FlushTake, Persist]) + [FlushEnd], goal);
  }

  class Auditor {
    var queue: seq<Entry>
    var attempted: seq<Entry>

    /** The state machine's view of a worker that waits. */
    ghost function Idle(): State
      reads this
    {
      State(queue, [], Waiting, false, attempted + queue, attempted, 0, |attempted| + |queue|, 0)
    }

    constructor ()
      ensures queue == [] && attempted == [] && Idle() == Initial
    {
      queue, attempted := [], [];
    }

    /** A non-blocking send. */
    method Send(e: Entry) returns (dropped: bool)
      requires |queue| <= QueueSize
      modifies this
      ensures dropped == (|old(queue)| == QueueSize) && |queue| <= QueueSize
      ensures attempted == old(attempted) && queue == if dropped then old(queue) else old(queue) + [e]
    {
      if |queue| < QueueSize {
        queue := queue + [e];
        return false;
      }
      return true;
    }

    /** An insert that fails counts as attempted: it is logged and skipped. */
    method PersistBatch(batch: seq<Entry>)
      modifies this
      ensures attempted == old(attempted) + batch && queue == old(queue)
    {
      for i := 0 to |batch|
        invariant attempted == old(attempted) + batch[..i] && queue == old(queue)
      {
        attempted := attempted + [batch[i]];
      }
      assert batch[..|batch|] == batch;
    }

    /** The receive branch: takes everything that is there, up to a full batch. */
    method HandleEntry()
      requires queue != [] && |queue| <= QueueSize
      modifies this
      ensures attempted == old(attempted) + old(queue) && queue == []
      ensures Leads(old(Idle()), BatchSteps(|old(queue)|), Idle())
    {
      BatchLeads(Idle());
      ghost var was := Idle();
      var batch := [queue[0]];
      queue := queue[1..];
      var drained := true;
      while drained && |batch| < QueueSize
        invariant batch + queue == old(queue) && attempted == old(attempted)
        invariant |batch| <= QueueSize && (!drained ==> queue == [])
        decreases |queue|, drained
      {
        if queue != [] {
          batch := batch + [queue[0]];
          queue := queue[1..];
        } else {
          drained := false;
        }
      }
      PersistBatch(batch);
      assert Idle() == was.(queue := [], attempted := was.attempted + was.queue);
    }

    method Flush()
      modifies this
      ensures attempted == old(attempted) + old(queue) && queue == []
      ensures Leads(old(Idle()), DrainSteps(|old(queue)|), Idle())
    {
      DrainLeads(Idle());
      ghost var was := Idle();
      while queue != []
        invariant attempted + queue == old(attempted) + old(queue)
        decreases |queue|
      {
        var entry := queue[0];
        queue := queue[1..];
        PersistBatch([entry]);
      }
      assert Idle() == was.(queue := [], attempted := was.attempted + was.queue);
    }
  }
}
