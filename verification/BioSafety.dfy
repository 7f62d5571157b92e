/**
 Whole runs of the background job system: nothing is lost, run twice or run
 out of order, no wake-up is missed, and what is asleep has nothing to do.
 */
module BioSafety {
  import opened Bio

  // ----- wake-ups of a worker and of the thread draining its queue -----

  /** The one thread that calls bioDrainWorker. */
  const MAIN := 0

  predicate InDrain(pc: CallPc) {
    pc.Draining? || pc.Sleeping? || pc.Awake? || pc.Drained?
  }

  predicate MainDrains(a: LaneAction) {
    a.DrainLock? ==> a.t == MAIN
  }

  /** Nobody sleeps for ever: whoever sleeps has no reason to run, or a signal is on its way. */
  ghost predicate NoLostWakeup(l: Lane) {
    && (l.queue != [] && l.pc.Waiting? ==> OwnerPc(l).Counting? || OwnerPc(l).Notifying?)
    && (forall t :: PcOf(l, t).Sleeping? ==>
          !l.pc.Waiting? && (l.queue != [] || l.pc.Decrementing? || l.pc.Signalling?))
  }

  ghost predicate OneDrainer(l: Lane) {
    forall t :: InDrain(PcOf(l, t)) ==> t == MAIN
  }

  ghost predicate WakeInv(l: Lane) {
    OneDrainer(l) && NoLostWakeup(l)
  }

  lemma CallStepWakes(w: nat, l: Lane, a: LaneAction)
    requires LaneInv(w, l) && WakeInv(l) && LaneEnabled(w, l, a) && MainDrains(a)
    requires a.SubmitLock? || a.Push? || a.CountUp? || a.Notify? || a.Unlock?
    ensures WakeInv(LaneStep(w, l, a))
  {
    hide Numbered, Counted, Typed, InOrder;
    var k := LaneStep(w, l, a);
    assert forall t :: t != a.t && !(a.Notify? && a.wake == TheCall(t)) ==> PcOf(k, t) == PcOf(l, t);
  }

  lemma DrainStepWakes(w: nat, l: Lane, a: LaneAction)
    requires LaneInv(w, l) && WakeInv(l) && LaneEnabled(w, l, a) && MainDrains(a)
    requires a.DrainLock? || a.DrainTest? || a.DrainRelock? || a.DrainUnlock? || a.StrayCall?
    ensures WakeInv(LaneStep(w, l, a))
  {
    hide Numbered, Counted, Typed, InOrder;
    var k := LaneStep(w, l, a);
    assert forall t :: t != a.t ==> PcOf(k, t) == PcOf(l, t);
  }

  lemma WorkerStepWakes(w: nat, l: Lane, a: LaneAction)
    requires LaneInv(w, l) && WakeInv(l) && LaneEnabled(w, l, a)
    requires a.Relock? || a.Loop? || a.Run? || a.WriteByte? || a.LockAgain? || a.Delete? || a.CountDown?
             || a.Signal? || a.StrayWorker?
    ensures WakeInv(LaneStep(w, l, a))
  {
    hide Numbered, Counted, Typed, InOrder, Unlink;
    var k := LaneStep(w, l, a);
    assert forall t :: !(a.Signal? && a.wake == TheCall(t)) ==> PcOf(k, t) == PcOf(l, t);
  }

  lemma LaneStepWakes(w: nat, l: Lane, a: LaneAction)
    requires LaneInv(w, l) && WakeInv(l) && LaneEnabled(w, l, a) && MainDrains(a)
    ensures WakeInv(LaneStep(w, l, a))
  {
    hide LaneInv, LaneStep, LaneEnabled, WakeInv;
    match a
    case SubmitLock(_, _) => CallStepWakes(w, l, a);
    case Push(_) => CallStepWakes(w, l, a);
    case CountUp(_) => CallStepWakes(w, l, a);
    case Notify(_, _) => CallStepWakes(w, l, a);
    case Unlock(_) => CallStepWakes(w, l, a);
    case DrainLock(_) => DrainStepWakes(w, l, a);
    case DrainTest(_) => DrainStepWakes(w, l, a);
    case DrainRelock(_) => DrainStepWakes(w, l, a);
    case DrainUnlock(_) => DrainStepWakes(w, l, a);
    case StrayCall(_) => DrainStepWakes(w, l, a);
    case _ => WorkerStepWakes(w, l, a);
  }

  // ----- completions -----

  /** The completion requests among the jobs a worker has run. */
  function Requests(w: nat, ran: seq<Job>): seq<Item>
    decreases |ran|
  {
    if ran == [] then []
    else
      var i := |ran| - 1;
      Requests(w, ran[..i]) + if IsCompletion(ran[i].ty) then [Item(w, i, ran[i].arg)] else []
  }

  function Project(items: seq<Item>, w: nat): seq<Item>
    decreases |items|
  {
    if items == [] then []
    else (if items[0].worker == w then [items[0]] else []) + Project(items[1..], w)
  }

  lemma {:induction false} ProjectConcat(a: seq<Item>, b: seq<Item>, w: nat)
    ensures Project(a + b, w) == Project(a, w) + Project(b, w)
    decreases |a|
  {
    if a == [] {
      assert a + b == b;
    } else {
      assert (a + b)[1..] == a[1..] + b;
      ProjectConcat(a[1..], b, w);
    }
  }

  lemma {:induction false} ProjectIn(items: seq<Item>, x: Item)
    requires x in items
    ensures x in Project(items, x.worker)
    decreases |items|
  {
    if items[0] != x {
      ProjectIn(items[1..], x);
    }
  }

  lemma {:induction false} RequestsAre(w: nat, ran: seq<Job>, x: Item)
    requires x in Requests(w, ran)
    ensures x.worker == w && x.id < |ran| && IsCompletion(ran[x.id].ty) && x.arg == ran[x.id].arg
    decreases |ran|
  {
    var i := |ran| - 1;
    if x in Requests(w, ran[..i]) {
      RequestsAre(w, ran[..i], x);
    }
  }

  function InHand(s: System): seq<Item> {
    if s.reader.Calling? then s.reader.items else []
  }

  /** Everything ever handed over: called, being called, or in the list. */
  function Handed(s: System): seq<Item> {
    s.called + InHand(s) + s.comp
  }

  predicate FromWorkers(s: System) {
    forall i :: 0 <= i < |Handed(s)| ==> Handed(s)[i].worker < WORKERS
  }

  ghost predicate Delivered(s: System)
    requires |s.lanes| == WORKERS
  {
    forall w :: 0 <= w < WORKERS ==> Project(Handed(s), w) == Requests(w, s.lanes[w].ran)
  }

  ghost predicate SomeoneWrites(s: System) {
    exists w :: 0 <= w < |s.lanes| && s.lanes[w].pc.Writing?
  }

  /** A non-empty completion list is always on its way to the event loop. */
  ghost predicate PipeAwake(s: System) {
    s.comp != [] ==> s.pipe > 0 || SomeoneWrites(s) || s.reader.Reading? || s.reader.Swapping?
  }

  ghost predicate LanesOk(s: System) {
    |s.lanes| == WORKERS && forall w :: 0 <= w < WORKERS ==> LaneInv(w, s.lanes[w]) && WakeInv(s.lanes[w])
  }

  ghost predicate Inv(s: System) {
    LanesOk(s) && FromWorkers(s) && Delivered(s) && PipeAwake(s)
  }

  predicate MainDrainsIn(a: Action) {
    a.OnLane? ==> MainDrains(a.a)
  }

  lemma LanesStep(capacity: nat, s: System, a: Action)
    requires LanesOk(s) && Enabled(s, a) && MainDrainsIn(a)
    ensures LanesOk(Step(capacity, s, a))
  {
    hide LaneInv, WakeInv, LaneStep, LaneEnabled;
    if a.OnLane? {
      LaneStepInv(a.w, s.lanes[a.w], a.a);
      LaneStepWakes(a.w, s.lanes[a.w], a.a);
    }
  }

  /** A step of a lane adds to the list exactly the request it has run. */
  lemma EmitsRan(w: nat, l: Lane, a: LaneAction)
    requires LaneInv(w, l) && LaneEnabled(w, l, a)
    ensures Requests(w, LaneStep(w, l, a).ran) == Requests(w, l.ran) + Emits(w, l, a)
  {
    hide Counted, Typed, Exclusive, Unlink;
    var k := LaneStep(w, l, a);
    if a.Run? {
      assert k.ran[..|l.ran|] == l.ran;
    }
  }

  lemma DeliveredStep(capacity: nat, s: System, a: Action)
    requires LanesOk(s) && FromWorkers(s) && Delivered(s) && Enabled(s, a)
    requires |Step(capacity, s, a).lanes| == WORKERS
    ensures FromWorkers(Step(capacity, s, a)) && Delivered(Step(capacity, s, a))
  {
    hide LaneInv, WakeInv, LaneStep, LaneEnabled, Project, Requests;
    var t := Step(capacity, s, a);
    if a.OnLane? {
      var e := Emits(a.w, s.lanes[a.w], a.a);
      assert Handed(t) == Handed(s) + e;
      EmitsRan(a.w, s.lanes[a.w], a.a);
      forall w | 0 <= w < WORKERS ensures Project(Handed(t), w) == Requests(w, t.lanes[w].ran) {
        ProjectConcat(Handed(s), e, w);
        EmitsMine(a.w, s.lanes[a.w], a.a, w);
      }
    } else {
      assert Handed(t) == Handed(s);
    }
  }

  lemma EmitsMine(v: nat, l: Lane, a: LaneAction, w: nat)
    ensures Project(Emits(v, l, a), w) == if v == w then Emits(v, l, a) else []
  {
    var e := Emits(v, l, a);
    if e != [] {
      assert e[1..] == [];
    }
  }

  lemma PipeStep(capacity: nat, s: System, a: Action)
    requires capacity >= 1
    requires LanesOk(s) && PipeAwake(s) && Enabled(s, a)
    ensures PipeAwake(Step(capacity, s, a))
  {
    hide LaneInv, WakeInv;
    var t := Step(capacity, s, a);
    if a.OnLane? && t.comp != [] {
      WriterStays(a.w, s.lanes[a.w], a.a);
      if a.a.WriteByte? {
        assert t.pipe > 0;
      } else if a.a.Run? && Emits(a.w, s.lanes[a.w], a.a) != [] {
        assert t.lanes[a.w].pc.Writing?;
      } else if SomeoneWrites(s) {
        var w :| 0 <= w < |s.lanes| && s.lanes[w].pc.Writing?;
        assert t.lanes[w].pc.Writing?;
      }
    }
  }

  /** A worker about to write the wake-up byte does nothing else first. */
  lemma WriterStays(w: nat, l: Lane, a: LaneAction)
    requires LaneEnabled(w, l, a)
    ensures l.pc.Writing? && !a.WriteByte? ==> LaneStep(w, l, a).pc == l.pc
  {
  }

  lemma StepInv(capacity: nat, s: System, a: Action)
    requires capacity >= 1 && Inv(s) && Enabled(s, a) && MainDrainsIn(a)
    ensures Inv(Step(capacity, s, a))
  {
    hide LanesOk, FromWorkers, Delivered, PipeAwake, Step, Enabled;
    LanesStep(capacity, s, a);
    LanesThree(s);
    LanesThree(Step(capacity, s, a));
    DeliveredStep(capacity, s, a);
    PipeStep(capacity, s, a);
  }

  lemma LanesThree(s: System)
    requires LanesOk(s)
    ensures |s.lanes| == WORKERS
  {
  }

  lemma NewLaneInv(w: nat)
    ensures LaneInv(w, NewLane()) && WakeInv(NewLane())
  {
  }

  lemma InitialInv()
    ensures Inv(Initial())
  {
    hide LaneInv, WakeInv;
    NewLaneInv(0);
    NewLaneInv(1);
    NewLaneInv(2);
  }

  /** Every run of the system, under every interleaving. */
  lemma {:induction false} RunInv(capacity: nat, s: System, acts: seq<Action>)
    requires capacity >= 1 && Inv(s) && Possible(capacity, s, acts)
    requires forall i :: 0 <= i < |acts| ==> MainDrainsIn(acts[i])
    ensures Inv(Execute(capacity, s, acts))
    decreases |acts|
  {
    hide Inv, Step, Enabled;
    if acts != [] {
      StepInv(capacity, s, acts[0]);
      RunInv(capacity, Step(capacity, s, acts[0]), acts[1..]);
    }
  }

  // ----- what a reachable state promises -----

  /** A lane whose mutex is free: queue, counters and history agree. */
  lemma CountersExact(s: System, w: nat, ty: JobType)
    requires Inv(s) && w < WORKERS && WorkerOf(ty) == w
    requires s.lanes[w].owner.Free?
    ensures ty in s.lanes[w].counter && s.lanes[w].counter[ty] == Count(s.lanes[w].queue, ty)
  {
    hide Delivered, FromWorkers, PipeAwake, Count;
    assert LaneInv(w, s.lanes[w]);
  }

  /** Jobs run once, in order; at most the one at the front has run and is still queued. */
  lemma RunsInOrder(s: System, w: nat)
    requires Inv(s) && w < WORKERS
    ensures var l := s.lanes[w];
            && l.ran <= l.submitted
            && |l.submitted| - |l.queue| <= |l.ran| <= |l.submitted| - |l.queue| + 1
  {
    hide Delivered, FromWorkers, PipeAwake, Count;
    assert LaneInv(w, s.lanes[w]);
  }

  /** When bioDrainWorker leaves its loop, all that was submitted has run. */
  lemma DrainWaits(s: System, w: nat, t: nat)
    requires Inv(s) && w < WORKERS && PcOf(s.lanes[w], t).Drained?
    ensures s.lanes[w].queue == [] && s.lanes[w].ran == s.lanes[w].submitted
  {
    hide Delivered, FromWorkers, PipeAwake, Count;
    assert LaneInv(w, s.lanes[w]);
  }

  /** A callback belongs to a request, all jobs before which have left the queue. */
  lemma CallbackComesAfter(s: System, x: Item)
    requires Inv(s) && x in s.called
    ensures x.worker < WORKERS
    ensures var l := s.lanes[x.worker];
            && x.id < |l.submitted| && IsCompletion(l.submitted[x.id].ty) && l.submitted[x.id].arg == x.arg
            && x.id <= |l.submitted| - |l.queue|
  {
    hide PipeAwake, Count, LaneInv, WakeInv, Project, Requests;
    assert x in Handed(s);
    var i :| 0 <= i < |Handed(s)| && Handed(s)[i] == x;
    assert Handed(s)[i].worker < WORKERS;
    ProjectIn(Handed(s), x);
    RequestsAre(x.worker, s.lanes[x.worker].ran, x);
    RunsInOrder(s, x.worker);
  }

  /** Each worker's callbacks come in the order of its requests, each once. */
  lemma CallbacksInOrder(s: System, w: nat)
    requires Inv(s) && w < WORKERS
    ensures Project(s.called, w) <= Requests(w, s.lanes[w].ran)
  {
    hide PipeAwake, Count, LaneInv, WakeInv, Project, Requests;
    assert Handed(s) == s.called + (InHand(s) + s.comp);
    ProjectConcat(s.called, InHand(s) + s.comp, w);
  }

  /** Every worker asleep, no call in progress, nothing in the pipe, the event loop at rest. */
  ghost predicate AllAsleep(s: System) {
    && (forall w :: 0 <= w < |s.lanes| ==> s.lanes[w].pc.Waiting? && s.lanes[w].owner.Free?)
    && s.pipe == 0
    && s.reader.AtRest?
  }

  /** When everything is asleep, everything has been done. */
  lemma AsleepMeansDone(capacity: nat, acts: seq<Action>)
    requires capacity >= 1 && Possible(capacity, Initial(), acts)
    requires forall i :: 0 <= i < |acts| ==> MainDrainsIn(acts[i])
    requires AllAsleep(Execute(capacity, Initial(), acts))
    ensures var s := Execute(capacity, Initial(), acts);
            |s.lanes| == WORKERS && s.comp == []
            && forall w :: 0 <= w < WORKERS ==>
              && s.lanes[w].queue == []
              && s.lanes[w].ran == s.lanes[w].submitted
              && Project(s.called, w) == Requests(w, s.lanes[w].submitted)
  {
    hide Possible, Execute, Inv;
    InitialInv();
    RunInv(capacity, Initial(), acts);
    AsleepDone(Execute(capacity, Initial(), acts));
  }

  lemma AsleepDone(s: System)
    requires Inv(s) && AllAsleep(s)
    ensures |s.lanes| == WORKERS && s.comp == []
    ensures forall w :: 0 <= w < WORKERS ==>
              && s.lanes[w].queue == []
              && s.lanes[w].ran == s.lanes[w].submitted
              && Project(s.called, w) == Requests(w, s.lanes[w].submitted)
  {
    hide Count, LaneInv, Project, Requests;
    assert Handed(s) == s.called;
    forall w | 0 <= w < WORKERS
      ensures s.lanes[w].queue == [] && s.lanes[w].ran == s.lanes[w].submitted
    {
      assert WakeInv(s.lanes[w]);
      RunsInOrder(s, w);
    }
  }

  // ----- the queue can always be worked off -----

  function Pick(l: Lane): Wake {
    if l.pc.Waiting? then TheWorker else if PcOf(l, MAIN).Sleeping? then TheCall(MAIN) else Nobody
  }

  /** What the owner of the mutex, or else the worker, does next. */
  function Next(l: Lane): LaneAction {
    if l.owner.ByCall? then
      var t := l.owner.t;
      match PcOf(l, t)
      case Pushing(_) => Push(t)
      case Counting(_) => CountUp(t)
      case Notifying => Notify(t, Pick(l))
      case Unlocking => Unlock(t)
      case Draining => DrainTest(t)
      case _ => DrainUnlock(t)
    else
      match l.pc
      case Top => Loop
      case Running(_) => Run
      case Writing(_) => WriteByte
      case Finished(_) => LockAgain
      case Deleting(_) => Delete
      case Decrementing(_) => CountDown
      case Signalling => Signal(Pick(l))
      case _ => Relock
  }

  function CallRank(pc: CallPc): nat {
    match pc
    case Pushing(_) => 30
    case Counting(_) => 3
    case Notifying => 2
    case Unlocking => 1
    case Draining => 1
    case Drained => 1
    case _ => 0
  }

  function WorkerRank(pc: WorkerPc): nat {
    match pc
    case Decrementing(_) => 12
    case Signalling => 11
    case Waiting => 10
    case Woken => 9
    case Top => 8
    case Running(_) => 7
    case Writing(_) => 6
    case Finished(_) => 5
    case Deleting(_) => 4
  }

  function Rank(l: Lane): nat {
    20 * |l.queue| + CallRank(OwnerPc(l)) + WorkerRank(l.pc)
  }

  lemma NextHelps(w: nat, l: Lane)
    requires LaneInv(w, l) && WakeInv(l) && l.queue != []
    ensures LaneEnabled(w, l, Next(l))
    ensures Rank(LaneStep(w, l, Next(l))) < Rank(l)
  {
    hide Count, Numbered, InOrder;
    assert forall t :: PcOf(l, t).Sleeping? ==> t == MAIN;
    if l.owner.ByCall? {
      assert CallHolds(PcOf(l, l.owner.t));
    }
  }

  ghost predicate LanePossible(w: nat, l: Lane, acts: seq<LaneAction>)
    decreases |acts|
  {
    acts == [] || (LaneEnabled(w, l, acts[0]) && LanePossible(w, LaneStep(w, l, acts[0]), acts[1..]))
  }

  ghost function LaneExecute(w: nat, l: Lane, acts: seq<LaneAction>): Lane
    requires LanePossible(w, l, acts)
    decreases |acts|
  {
    if acts == [] then l else LaneExecute(w, LaneStep(w, l, acts[0]), acts[1..])
  }

  /** Steps of calls already begun and of the worker itself. */
  predicate NoNewWork(a: LaneAction) {
    !a.SubmitLock? && !a.DrainLock? && !a.StrayCall? && !a.StrayWorker?
  }

  lemma NextIsNoNewWork(l: Lane)
    ensures NoNewWork(Next(l)) && MainDrains(Next(l))
  {
  }

  /** From every reachable state the threads can finish the queue on their own. */
  lemma {:induction false} QueueFinishes(w: nat, l: Lane) returns (acts: seq<LaneAction>)
    requires LaneInv(w, l) && WakeInv(l)
    ensures LanePossible(w, l, acts) && |acts| <= Rank(l)
    ensures forall i :: 0 <= i < |acts| ==> NoNewWork(acts[i])
    ensures LaneExecute(w, l, acts).queue == []
    decreases Rank(l)
  {
    hide LaneInv, WakeInv, LaneStep, LaneEnabled, Rank, Next;
    if l.queue == [] {
      acts := [];
    } else {
      var a := Next(l);
      NextHelps(w, l);
      NextIsNoNewWork(l);
      LaneStepInv(w, l, a);
      LaneStepWakes(w, l, a);
      var rest := QueueFinishes(w, LaneStep(w, l, a));
      acts := [a] + rest;
      assert acts[1..] == rest;
    }
  }

  // ----- a second draining thread -----

  lemma {:induction false} LaneRunsOn(w: nat, l: Lane, a: seq<LaneAction>, b: seq<LaneAction>)
    requires LanePossible(w, l, a) && LanePossible(w, LaneExecute(w, l, a), b)
    ensures LanePossible(w, l, a + b)
    ensures LaneExecute(w, l, a + b) == LaneExecute(w, LaneExecute(w, l, a), b)
    decreases |a|
  {
    hide LaneStep, LaneEnabled;
    if a == [] {
      assert a + b == b;
    } else {
      assert (a + b)[1..] == a[1..] + b;
      LaneRunsOn(w, LaneStep(w, l, a[0]), a[1..], b);
    }
  }

  lemma OneStep(w: nat, l: Lane, a: LaneAction)
    requires LaneEnabled(w, l, a)
    ensures LanePossible(w, l, [a]) && LaneExecute(w, l, [a]) == LaneStep(w, l, a)
  {
    hide LaneStep, LaneEnabled;
    assert [a][1..] == [];
  }

  ghost predicate Reachable(w: nat, l: Lane) {
    exists acts :: LanePossible(w, NewLane(), acts) && LaneExecute(w, NewLane(), acts) == l
  }

  lemma ReachStep(w: nat, l: Lane, a: LaneAction)
    requires Reachable(w, l) && LaneEnabled(w, l, a)
    ensures Reachable(w, LaneStep(w, l, a))
  {
    hide LaneStep, LaneEnabled, LanePossible, LaneExecute;
    var acts :| LanePossible(w, NewLane(), acts) && LaneExecute(w, NewLane(), acts) == l;
    OneStep(w, l, a);
    LaneRunsOn(w, NewLane(), acts, [a]);
  }

  const JOB := Job(CloseFile, 0)

  function Jobs(n: int): map<JobType, int> { NO_JOBS[CloseFile := n] }

  lemma StartReachable(w: nat)
    ensures Reachable(w, NewLane())
  {
    assert LanePossible(w, NewLane(), []) && LaneExecute(w, NewLane(), []) == NewLane();
  }

  /** A lane with job number `n` queued or not, as the run below meets it. */
  function Scene(queued: bool, submitted: nat, pc: WorkerPc, main: CallPc, other: CallPc): Lane
    requires submitted >= 1
  {
    var subs := seq(submitted, i => JOB);
    Lane(if queued then [Node(submitted - 1, JOB)] else [], Jobs(if queued then 1 else 0), Free, pc,
         map[2 := Idle, 0 := main, 1 := other], subs,
         if queued then subs[..submitted - 1] else subs)
  }

  lemma FirstJob()
    ensures Reachable(0, Lane([Node(0, JOB)], Jobs(1), Free, Woken, map[2 := Idle], [JOB], []))
  {
    hide Reachable, Unlink;
    StartReachable(0);
    var l0 := NewLane();
    var l1 := LaneStep(0, l0, SubmitLock(2, JOB));
    ReachStep(0, l0, SubmitLock(2, JOB));
    var l2 := LaneStep(0, l1, Push(2));
    ReachStep(0, l1, Push(2));
    var l3 := LaneStep(0, l2, CountUp(2));
    ReachStep(0, l2, CountUp(2));
    var l4 := LaneStep(0, l3, Notify(2, Nobody));
    ReachStep(0, l3, Notify(2, Nobody));
    ReachStep(0, l4, Unlock(2));
    assert LaneStep(0, l4, Unlock(2)).calls == map[2 := Idle];
    assert LaneStep(0, l4, Unlock(2)).queue == [Node(0, JOB)];
    assert LaneStep(0, l4, Unlock(2)).submitted == [JOB];
  }

  lemma BothSleep()
    ensures Reachable(0, Scene(true, 1, Woken, Sleeping, Sleeping))
  {
    hide Reachable, Unlink;
    FirstJob();
    var l0 := Lane([Node(0, JOB)], Jobs(1), Free, Woken, map[2 := Idle], [JOB], []);
    var l1 := LaneStep(0, l0, DrainLock(0));
    ReachStep(0, l0, DrainLock(0));
    var l2 := LaneStep(0, l1, DrainTest(0));
    ReachStep(0, l1, DrainTest(0));
    var l3 := LaneStep(0, l2, DrainLock(1));
    ReachStep(0, l2, DrainLock(1));
    ReachStep(0, l3, DrainTest(1));
    var l4 := LaneStep(0, l3, DrainTest(1));
    assert l4.calls == map[2 := Idle, 0 := Sleeping, 1 := Sleeping];
    assert l4.submitted == seq(1, i => JOB);
  }

  function JustRan(): Lane {
    Scene(true, 1, Finished(Node(0, JOB)), Sleeping, Sleeping).(ran := [JOB])
  }

  lemma JobRuns()
    ensures Reachable(0, JustRan())
  {
    hide Reachable, Unlink;
    BothSleep();
    var l0 := Scene(true, 1, Woken, Sleeping, Sleeping);
    var l1 := LaneStep(0, l0, Relock);
    ReachStep(0, l0, Relock);
    var l2 := LaneStep(0, l1, Loop);
    ReachStep(0, l1, Loop);
    ReachStep(0, l2, Run);
    assert LaneStep(0, l2, Run) == JustRan();
  }

  /** The worker finishes the job, and its one signal wakes the first drainer only. */
  lemma OneWoken()
    ensures Reachable(0, Scene(false, 1, Waiting, Awake, Sleeping))
  {
    hide Reachable;
    JobRuns();
    var l3 := JustRan();
    var l4 := LaneStep(0, l3, LockAgain);
    ReachStep(0, l3, LockAgain);
    var l5 := LaneStep(0, l4, Delete);
    ReachStep(0, l4, Delete);
    var l6 := LaneStep(0, l5, CountDown);
    ReachStep(0, l5, CountDown);
    var l7 := LaneStep(0, l6, Signal(TheCall(0)));
    ReachStep(0, l6, Signal(TheCall(0)));
    ReachStep(0, l7, Loop);
    var l8 := LaneStep(0, l7, Loop);
    assert l8.calls == map[2 := Idle, 0 := Awake, 1 := Sleeping];
    assert l8.counter == Jobs(0);
    assert l8.ran == seq(1, i => JOB);
  }

  /** The next job's signal goes to the drainer left behind. */
  lemma SecondJob()
    ensures Reachable(0, Scene(true, 2, Waiting, Awake, Awake))
  {
    hide Reachable, Unlink;
    OneWoken();
    var l0 := Scene(false, 1, Waiting, Awake, Sleeping);
    var l1 := LaneStep(0, l0, SubmitLock(2, JOB));
    ReachStep(0, l0, SubmitLock(2, JOB));
    var l2 := LaneStep(0, l1, Push(2));
    ReachStep(0, l1, Push(2));
    var l3 := LaneStep(0, l2, CountUp(2));
    ReachStep(0, l2, CountUp(2));
    var l4 := LaneStep(0, l3, Notify(2, TheCall(1)));
    ReachStep(0, l3, Notify(2, TheCall(1)));
    ReachStep(0, l4, Unlock(2));
    var l5 := LaneStep(0, l4, Unlock(2));
    assert l5.calls == map[2 := Idle, 0 := Awake, 1 := Awake];
    assert l5.submitted == seq(2, i => JOB);
    assert l5.ran == l5.submitted[..1];
    assert l5.counter == Jobs(1);
    assert l5.queue == [Node(1, JOB)];
    assert l5 == Scene(true, 2, Waiting, Awake, Awake);
  }

  lemma BothSleepAgain()
    ensures Reachable(0, Scene(true, 2, Waiting, Sleeping, Sleeping))
  {
    hide Reachable, Unlink;
    SecondJob();
    var l0 := Scene(true, 2, Waiting, Awake, Awake);
    var l1 := LaneStep(0, l0, DrainRelock(0));
    ReachStep(0, l0, DrainRelock(0));
    var l2 := LaneStep(0, l1, DrainTest(0));
    ReachStep(0, l1, DrainTest(0));
    var l3 := LaneStep(0, l2, DrainRelock(1));
    ReachStep(0, l2, DrainRelock(1));
    ReachStep(0, l3, DrainTest(1));
    assert LaneStep(0, l3, DrainTest(1)).calls == map[2 := Idle, 0 := Sleeping, 1 := Sleeping];
  }

  /**
   With a second thread in bioDrainWorker a signal meant for the worker can be
   lost: a job is queued, the worker and both drainers sleep, and no one who
   is awake has a step to take.
   */
  lemma TwoDrainersStick()
    ensures exists l :: Reachable(0, l) && l.queue != [] && forall a :: LaneEnabled(0, l, a) ==> !NoNewWork(a)
  {
    hide Reachable, Unlink;
    BothSleepAgain();
    var l := Scene(true, 2, Waiting, Sleeping, Sleeping);
    forall a | LaneEnabled(0, l, a) ensures !NoNewWork(a) {
      assert forall t :: PcOf(l, t).Idle? || PcOf(l, t).Sleeping?;
    }
    assert l.queue != [];
  }
}
