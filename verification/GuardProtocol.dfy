/**
 One-time initialisation of function-local statics. Any number of tasks and
 guards share one mutex and one counting semaphore. A step executes one
 statement of one task; the program counter says which comes next.
 */
module GuardProtocol {
  import opened Sequences

  type Task = nat
  type Guard = nat

  /** The statement a task executes next. Names follow the source functions. */
  datatype PC =
    | Outside
    | AcquireLock(g: Guard)
    | AcquireTest(g: Guard)
    | WaitUnlock(g: Guard)
    | WaitSem(g: Guard)
    | WaitLock(g: Guard)
    | WaitTest(g: Guard)
    | AcquireDecide(g: Guard)
    | AcquireUnlock(g: Guard, ret: bool)
    | EndLock(g: Guard, success: bool)
    | EndSet(g: Guard, success: bool)
    | Signal(count: nat)
    | EndUnlock
  {
    predicate Critical() {
      AcquireTest? || WaitUnlock? || WaitTest? || AcquireDecide? || AcquireUnlock?
      || EndSet? || Signal? || EndUnlock?
    }

    /** Inside acquire, for guard `h`. */
    predicate Acquiring(h: Guard) {
      (AcquireLock? || AcquireTest? || InWaitLoop() || AcquireDecide? || AcquireUnlock?) && g == h
    }

    /** Inside release or abort, of guard `h`. */
    predicate Ending(h: Guard, success': bool) {
      ((EndLock? || EndSet?) && g == h && success == success') || Signal? || EndUnlock?
    }

    /** How many statements are left, up to the next token that is taken. */
    function Rank(): nat {
      match this
      case Outside => 0
      case AcquireLock(_) => 10
      case AcquireTest(_) => 9
      case WaitLock(_) => 8
      case WaitTest(_) => 7
      case WaitUnlock(_) => 6
      case WaitSem(_) => 5
      case AcquireDecide(_) => 4
      case AcquireUnlock(_, _) => 3
      case EndLock(_, _) => 4
      case EndSet(_, _) => 3
      case Signal(_) => 2
      case EndUnlock => 1
    }

    function Tokens(): nat {
      if Signal? then count else 0
    }

    predicate InWaitLoop() {
      WaitUnlock? || WaitSem? || WaitLock? || WaitTest?
    }
  }

  /**
   `mutex` is the holder of the mutex, `sem` the tokens of the semaphore,
   `waiting` the counter of waiting tasks; `pending` and `ready` are the guards
   with that byte set. `owners` records the task responsible for each pending
   guard, from the moment it sets the byte until it clears it again.
   */
  datatype State = State(pcs: map<Task, PC>, mutex: Option<Task>, sem: nat, waiting: nat,
                         pending: set<Guard>, ready: set<Guard>, owners: set<(Task, Guard)>)
  {
    function To(t: Task, pc: PC): State {
      this.(pcs := pcs[t := pc])
    }
  }

  function Init(tasks: set<Task>): State {
    State(map t | t in tasks :: Outside, None, 0, 0, {}, {}, {})
  }

  datatype Action =
    | CallAcquire(t: Task, g: Guard)
    | CallRelease(t: Task, g: Guard)
    | CallAbort(t: Task, g: Guard)
    | Continue(t: Task)

  /** Callers end only initialisations that they run; locks and tokens block. */
  predicate Enabled(s: State, a: Action) {
    && a.t in s.pcs
    && match a
       case CallAcquire(t, g) => s.pcs[t] == Outside
       case CallRelease(t, g) => s.pcs[t] == Outside && (t, g) in s.owners
       case CallAbort(t, g) => s.pcs[t] == Outside && (t, g) in s.owners
       case Continue(t) =>
         match s.pcs[t]
         case Outside => false
         case AcquireLock(_) => s.mutex == None
         case WaitLock(_) => s.mutex == None
         case EndLock(_, _) => s.mutex == None
         case WaitSem(_) => s.sem > 0
         case _ => true
  }

  function Step(s: State, a: Action): State
    requires Enabled(s, a)
  {
    match a
    case CallAcquire(t, g) => s.To(t, AcquireLock(g))
    case CallRelease(t, g) => s.To(t, EndLock(g, true))
    case CallAbort(t, g) => s.To(t, EndLock(g, false))
    case Continue(t) =>
      match s.pcs[t]
      case AcquireLock(g) => s.(mutex := Some(t)).To(t, AcquireTest(g))
      case AcquireTest(g) =>
        if g in s.pending then s.(waiting := s.waiting + 1).To(t, WaitUnlock(g))
        else s.To(t, AcquireDecide(g))
      case WaitUnlock(g) => s.(mutex := None).To(t, WaitSem(g))
      case WaitSem(g) => s.(sem := s.sem - 1).To(t, WaitLock(g))
      case WaitLock(g) => s.(mutex := Some(t)).To(t, WaitTest(g))
      case WaitTest(g) =>
        if g in s.pending then s.To(t, WaitUnlock(g))
        else s.(waiting := if s.waiting > 0 then s.waiting - 1 else 0).To(t, AcquireDecide(g))
      case AcquireDecide(g) =>
        if g in s.ready then s.To(t, AcquireUnlock(g, false))
        else s.(pending := s.pending + {g}, owners := s.owners + {(t, g)}).To(t, AcquireUnlock(g, true))
      case AcquireUnlock(g, ret) => s.(mutex := None).To(t, Outside)
      case EndLock(g, success) => s.(mutex := Some(t)).To(t, EndSet(g, success))
      case EndSet(g, success) =>
        s.(pending := s.pending - {g}, ready := if success then s.ready + {g} else s.ready,
           owners := s.owners - {(t, g)})
        .To(t, Signal(s.waiting))
      case Signal(n) =>
        if n > 0 then s.(sem := s.sem + 1).To(t, Signal(n - 1)) else s.To(t, EndUnlock)
      case EndUnlock => s.(mutex := None).To(t, Outside)
  }

  // ---- The invariant ---------------------------------------------------------

  ghost function InLoop(pcs: map<Task, PC>): set<Task> {
    set t | t in pcs && pcs[t].InWaitLoop()
  }

  ghost function Blocked(pcs: map<Task, PC>): set<Task> {
    set t | t in pcs && pcs[t].WaitSem?
  }

  /** Task `t` has been told to run the initialiser of `g` and has not ended it. */
  ghost predicate Initialising(s: State, t: Task, g: Guard) {
    t in s.pcs && (t, g) in s.owners && s.pcs[t] != AcquireUnlock(g, true)
  }

  ghost predicate Signalling(s: State) {
    exists t :: t in s.pcs && s.pcs[t].Signal?
  }

  /** The mutex is held by exactly the task that is inside the critical section. */
  ghost predicate MutexInv(s: State) {
    && (forall t :: t in s.pcs && s.pcs[t].Critical() ==> s.mutex == Some(t))
    && (s.mutex.Some? ==> s.mutex.value in s.pcs && s.pcs[s.mutex.value].Critical())
  }

  /** A guard is pending exactly while one task is responsible for it. */
  ghost predicate GuardInv(s: State) {
    && s.pending !! s.ready
    && (forall g :: g in s.pending <==> exists t :: (t, g) in s.owners)
    && (forall t, u, g :: (t, g) in s.owners && (u, g) in s.owners ==> t == u)
    && (forall t, g :: (t, g) in s.owners ==> t in s.pcs)
    && (forall t :: t in s.pcs ==> Locally(s, t, s.pcs[t]))
  }

  /** What the program counter of a task says about the guards. */
  ghost predicate Locally(s: State, t: Task, pc: PC) {
    match pc
    case WaitUnlock(g) => g in s.pending
    case AcquireDecide(g) => g !in s.pending
    case AcquireUnlock(g, ret) => if ret then (t, g) in s.owners else g in s.ready
    case EndLock(g, _) => (t, g) in s.owners
    case EndSet(g, _) => (t, g) in s.owners
    case _ => true
  }

  ghost predicate Counted(s: State) {
    s.waiting == |InLoop(s.pcs)|
  }

  /** Tokens and promised tokens cover the blocked tasks while one task signals. */
  ghost predicate Promised(s: State) {
    forall t :: t in s.pcs && s.pcs[t].Signal? ==> |Blocked(s.pcs)| <= s.sem + s.pcs[t].count
  }

  /** Tokens cover the blocked tasks once nothing is pending. */
  ghost predicate Covered(s: State) {
    s.pending == {} && !Signalling(s) ==> |Blocked(s.pcs)| <= s.sem
  }

  ghost predicate TokenInv(s: State) {
    Counted(s) && Promised(s) && Covered(s)
  }

  ghost predicate Inv(s: State) {
    MutexInv(s) && GuardInv(s) && TokenInv(s)
  }

  lemma InitInv(tasks: set<Task>)
    ensures Inv(Init(tasks))
  {
    assert InLoop(Init(tasks).pcs) == {};
    assert Blocked(Init(tasks).pcs) == {};
  }

  lemma MutexStep(s: State, a: Action)
    requires Enabled(s, a) && MutexInv(s)
    ensures MutexInv(Step(s, a))
  {
  }

  lemma GuardStep(s: State, a: Action)
    requires Enabled(s, a) && MutexInv(s) && GuardInv(s)
    ensures GuardInv(Step(s, a))
  {
  }

  lemma InLoopMoves(pcs: map<Task, PC>, t: Task, pc: PC)
    requires t in pcs
    ensures InLoop(pcs[t := pc]) == if pc.InWaitLoop() then InLoop(pcs) + {t} else InLoop(pcs) - {t}
  {
  }

  lemma BlockedMoves(pcs: map<Task, PC>, t: Task, pc: PC)
    requires t in pcs
    ensures Blocked(pcs[t := pc]) == if pc.WaitSem? then Blocked(pcs) + {t} else Blocked(pcs) - {t}
  {
  }

  lemma LoopMoves(pcs: map<Task, PC>, t: Task, pc: PC)
    requires t in pcs
    ensures InLoop(pcs[t := pc]) == if pc.InWaitLoop() then InLoop(pcs) + {t} else InLoop(pcs) - {t}
    ensures Blocked(pcs[t := pc]) == if pc.WaitSem? then Blocked(pcs) + {t} else Blocked(pcs) - {t}
    ensures |Blocked(pcs)| <= |InLoop(pcs)|
  {
    InLoopMoves(pcs, t, pc);
    BlockedMoves(pcs, t, pc);
    Subset(Blocked(pcs), InLoop(pcs));
  }

  lemma {:induction false} Subset<T>(a: set<T>, b: set<T>)
    requires a <= b
    ensures |a| <= |b|
  {
    if a != {} {
      var x :| x in a;
      Subset(a - {x}, b - {x});
    }
  }

  /** The counter of waiting tasks never underflows. */
  lemma WaiterIsCounted(s: State, t: Task)
    requires Counted(s) && t in s.pcs && s.pcs[t].InWaitLoop()
    ensures s.waiting > 0
  {
    assert t in InLoop(s.pcs);
  }

  lemma OthersKeepSignalling(s: State, a: Action, u: Task)
    requires Enabled(s, a) && u in s.pcs && s.pcs[u].Signal? && u != a.t
    ensures Signalling(Step(s, a))
  {
    assert Step(s, a).pcs[u].Signal?;
  }

  /** One task more or one less is in the loop. */
  lemma LoopSize(pcs: map<Task, PC>, t: Task, pc: PC)
    requires t in pcs
    ensures |InLoop(pcs[t := pc])| ==
            |InLoop(pcs)| + (if pc.InWaitLoop() then 1 else 0) - if pcs[t].InWaitLoop() then 1 else 0
  {
    var loop := InLoop(pcs);
    InLoopMoves(pcs, t, pc);
    if t in loop {
      assert loop + {t} == loop;
    } else {
      assert loop - {t} == loop;
    }
  }

  lemma WaitingStep(s: State, a: Action)
    requires Enabled(s, a) && (s.pcs[a.t].InWaitLoop() ==> s.waiting > 0)
    ensures var s' := Step(s, a);
            && s'.pcs == s.pcs[a.t := s'.pcs[a.t]]
            && s'.waiting == s.waiting + (if s'.pcs[a.t].InWaitLoop() then 1 else 0)
                                       - if s.pcs[a.t].InWaitLoop() then 1 else 0
  {
  }

  lemma CountStep(s: State, a: Action)
    requires Enabled(s, a) && Counted(s)
    ensures Counted(Step(s, a))
  {
    LoopSize(s.pcs, a.t, Step(s, a).pcs[a.t]);
    if s.pcs[a.t].InWaitLoop() {
      WaiterIsCounted(s, a.t);
    }
    WaitingStep(s, a);
  }

  /** Outside the critical section, a step takes at most the token that it no longer needs. */
  lemma BlockedStep(s: State, a: Action)
    requires Enabled(s, a) && !s.pcs[a.t].Critical()
    ensures |Blocked(Step(s, a).pcs)| - Step(s, a).sem <= |Blocked(s.pcs)| - s.sem
  {
    BlockedMoves(s.pcs, a.t, Step(s, a).pcs[a.t]);
    assert s.pcs[a.t].WaitSem? ==> a.t in Blocked(s.pcs);
  }

  /** A task that begins to signal promises a token to every waiting task, and keeps its promise. */
  lemma SignallerStep(s: State, a: Action)
    requires Enabled(s, a) && Counted(s) && Promised(s)
    ensures var s' := Step(s, a);
            s'.pcs[a.t].Signal? ==> |Blocked(s'.pcs)| <= s'.sem + s'.pcs[a.t].count
  {
    LoopMoves(s.pcs, a.t, Step(s, a).pcs[a.t]);
  }

  lemma PromiseStep(s: State, a: Action)
    requires Enabled(s, a) && MutexInv(s) && Counted(s) && Promised(s)
    ensures Promised(Step(s, a))
  {
    var s' := Step(s, a);
    SignallerStep(s, a);
    forall t | t in s'.pcs && s'.pcs[t].Signal? && t != a.t
      ensures |Blocked(s'.pcs)| <= s'.sem + s'.pcs[t].count
    {
      assert s.mutex == Some(t) && s.pcs[t] == s'.pcs[t];
      BlockedStep(s, a);
    }
  }

  lemma CoverStep(s: State, a: Action)
    requires Enabled(s, a) && Inv(s)
    ensures Covered(Step(s, a))
  {
    if s.pcs[a.t].Critical() {
      CriticalCover(s, a);
    } else {
      BlockedStep(s, a);
      if u :| u in s.pcs && s.pcs[u].Signal? {
        OthersKeepSignalling(s, a, u);
      }
    }
  }

  lemma CriticalCover(s: State, a: Action)
    requires Enabled(s, a) && Inv(s) && s.pcs[a.t].Critical()
    ensures Covered(Step(s, a))
  {
    assert Locally(s, a.t, s.pcs[a.t]);
    assert forall u :: u in s.pcs && s.pcs[u].Signal? ==> u == a.t;
    assert Step(s, a).pcs[a.t].Signal? ==> Signalling(Step(s, a));
    BlockedMoves(s.pcs, a.t, Step(s, a).pcs[a.t]);
  }

  lemma StepInv(s: State, a: Action)
    requires Enabled(s, a) && Inv(s)
    ensures Inv(Step(s, a))
  {
    MutexStep(s, a);
    GuardStep(s, a);
    CountStep(s, a);
    PromiseStep(s, a);
    CoverStep(s, a);
  }

  // ---- Every run of any number of tasks ---------------------------------------

  /** `s` is reached from `r` by executing `acts` in order. */
  ghost predicate Reaches(r: State, acts: seq<Action>, s: State)
    decreases |acts|
  {
    if acts == [] then s == r
    else Enabled(r, acts[0]) && Reaches(Step(r, acts[0]), acts[1..], s)
  }

  lemma {:induction false} RunInv(r: State, acts: seq<Action>, s: State)
    requires Inv(r) && Reaches(r, acts, s)
    ensures Inv(s) && r.ready <= s.ready
    decreases |acts|
  {
    if acts != [] {
      StepInv(r, acts[0]);
      RunInv(Step(r, acts[0]), acts[1..], s);
    }
  }

  /**
   No stranded waiter: when no guard is pending and nobody is half way through
   signalling, every blocked task has a token waiting for it.
   */
  lemma NoStrandedWaiter(tasks: set<Task>, acts: seq<Action>, s: State)
    requires Reaches(Init(tasks), acts, s)
    ensures s.pending == {} && !Signalling(s) ==> |Blocked(s.pcs)| <= s.sem
    ensures s.pending == {} && !Signalling(s) ==> forall t :: t in Blocked(s.pcs) ==> Enabled(s, Continue(t))
  {
    InitInv(tasks);
    RunInv(Init(tasks), acts, s);
    if t :| t in Blocked(s.pcs) {
      Subset({t}, Blocked(s.pcs));
    }
  }

  // ---- When waiters are stuck --------------------------------------------------------

  /** Nobody can do anything but call acquire. */
  ghost predicate OnlyNewAcquires(s: State) {
    forall a :: Enabled(s, a) ==> a.CallAcquire?
  }

  /** Each task is outside, or blocked on a semaphore without tokens; all owners are blocked. */
  ghost predicate Deadlocked(s: State) {
    && s.mutex == None && s.sem == 0 && s.pending != {}
    && (forall t :: t in s.pcs ==> s.pcs[t] == Outside || s.pcs[t].WaitSem?)
    && (forall t, g :: (t, g) in s.owners ==> t in s.pcs && s.pcs[t].WaitSem?)
  }

  lemma StuckIsDeadlocked(s: State)
    requires Inv(s) && Blocked(s.pcs) != {} && OnlyNewAcquires(s)
    ensures Deadlocked(s)
  {
    if s.mutex.Some? {
      assert Enabled(s, Continue(s.mutex.value));
    }
    forall t | t in s.pcs
      ensures s.pcs[t] == Outside || s.pcs[t].WaitSem?
    {
      assert !Enabled(s, Continue(t));
    }
    var b :| b in Blocked(s.pcs);
    assert !Enabled(s, Continue(b));
    Subset({b}, Blocked(s.pcs));
    forall t, g | (t, g) in s.owners
      ensures s.pcs[t].WaitSem?
    {
      assert !Enabled(s, CallRelease(t, g));
    }
  }

  /**
   In a run, blocked tasks are stuck until somebody calls acquire anew exactly
   when some guard is pending and each task that is to end a pending
   initialisation is itself blocked, with no token left and nobody on the move.
   */
  lemma StuckExactly(tasks: set<Task>, acts: seq<Action>, s: State)
    requires Reaches(Init(tasks), acts, s) && Blocked(s.pcs) != {}
    ensures OnlyNewAcquires(s) <==> Deadlocked(s)
  {
    InitInv(tasks);
    RunInv(Init(tasks), acts, s);
    if OnlyNewAcquires(s) {
      StuckIsDeadlocked(s);
    }
  }

  /**
   So while no task waits inside an initialiser that it runs, blocked tasks are
   never stuck: some task can go on, or end its initialisation.
   */
  lemma NoNestingNoDeadlock(tasks: set<Task>, acts: seq<Action>, s: State)
    requires Reaches(Init(tasks), acts, s) && Blocked(s.pcs) != {}
    requires forall t, g :: (t, g) in s.owners && t in s.pcs ==> !s.pcs[t].InWaitLoop()
    ensures exists a :: Enabled(s, a) && !a.CallAcquire?
  {
    StuckExactly(tasks, acts, s);
    InitInv(tasks);
    RunInv(Init(tasks), acts, s);
    if s.pending != {} {
      var g :| g in s.pending;
      var t :| (t, g) in s.owners;
      assert !s.pcs[t].WaitSem?;
    }
  }

  /** No task calls acquire while it runs an initialiser. */
  ghost predicate Unnested(r: State, acts: seq<Action>)
    decreases |acts|
  {
    acts == []
    || (&& Enabled(r, acts[0])
        && (acts[0].CallAcquire? ==> forall g :: (acts[0].t, g) !in r.owners)
        && Unnested(Step(r, acts[0]), acts[1..]))
  }

  /** Each task runs at most one initialiser, and while it does it waits for nothing. */
  ghost predicate OneEach(s: State) {
    && (forall t, g, h :: (t, g) in s.owners && (t, h) in s.owners ==> g == h)
    && (forall t, g :: (t, g) in s.owners ==>
          t in s.pcs && (s.pcs[t] == Outside || s.pcs[t].AcquireUnlock? || s.pcs[t].EndLock? || s.pcs[t].EndSet?))
  }

  lemma OneEachStep(s: State, a: Action)
    requires Inv(s) && OneEach(s) && Enabled(s, a)
    requires a.CallAcquire? ==> forall g :: (a.t, g) !in s.owners
    ensures OneEach(Step(s, a))
  {
    assert Locally(s, a.t, s.pcs[a.t]);
  }

  lemma {:induction false} UnnestedRun(r: State, acts: seq<Action>, s: State)
    requires Inv(r) && OneEach(r) && Reaches(r, acts, s) && Unnested(r, acts)
    ensures OneEach(s)
    decreases |acts|
  {
    if acts != [] {
      OneEachStep(r, acts[0]);
      StepInv(r, acts[0]);
      UnnestedRun(Step(r, acts[0]), acts[1..], s);
    }
  }

  /** A program whose initialisers use no other guarded static never gets stuck. */
  lemma UnnestedNeverStuck(tasks: set<Task>, acts: seq<Action>, s: State)
    requires Reaches(Init(tasks), acts, s) && Unnested(Init(tasks), acts) && Blocked(s.pcs) != {}
    ensures exists a :: Enabled(s, a) && !a.CallAcquire?
  {
    InitInv(tasks);
    UnnestedRun(Init(tasks), acts, s);
    NoNestingNoDeadlock(tasks, acts, s);
  }

  /** At most one task runs the initialiser of a guard, and only before it is ready. */
  lemma SingleInitialiser(tasks: set<Task>, acts: seq<Action>, s: State, t: Task, u: Task, g: Guard)
    requires Reaches(Init(tasks), acts, s)
    ensures Initialising(s, t, g) && Initialising(s, u, g) ==> t == u
    ensures !(g in s.pending && g in s.ready)
    ensures Initialising(s, t, g) ==> g in s.pending && g !in s.ready
  {
    InitInv(tasks);
    RunInv(Init(tasks), acts, s);
  }

  /** The assertions in release and abort never fire. */
  lemma EndAssertionsHold(tasks: set<Task>, acts: seq<Action>, s: State, t: Task)
    requires Reaches(Init(tasks), acts, s)
    requires t in s.pcs && s.pcs[t].EndSet?
    ensures s.pcs[t].g in s.pending && s.pcs[t].g !in s.ready
  {
    InitInv(tasks);
    RunInv(Init(tasks), acts, s);
  }

  /** Once a guard is ready, no acquire of it ever returns 1 again. */
  lemma ReadyForever(tasks: set<Task>, acts: seq<Action>, r: State, more: seq<Action>, s: State, g: Guard)
    requires Reaches(Init(tasks), acts, r) && g in r.ready
    requires Reaches(r, more, s)
    ensures g in s.ready
    ensures forall t :: t in s.pcs ==> s.pcs[t] != AcquireUnlock(g, true) && !Initialising(s, t, g)
  {
    InitInv(tasks);
    RunInv(Init(tasks), acts, r);
    RunInv(r, more, s);
    assert g !in s.pending;
    assert forall t :: (t, g) !in s.owners;
    forall t | t in s.pcs
      ensures s.pcs[t] != AcquireUnlock(g, true)
    {
      assert Locally(s, t, s.pcs[t]);
    }
  }

  /** From the statement on that a release marks a guard with, it stays initialised. */
  lemma AfterRelease(tasks: set<Task>, acts: seq<Action>, r: State, t: Task, g: Guard, more: seq<Action>, s: State)
    requires Reaches(Init(tasks), acts, r) && t in r.pcs && r.pcs[t] == EndSet(g, true)
    requires Reaches(Step(r, Continue(t)), more, s)
    ensures g in s.ready && g !in s.pending
    ensures forall u :: u in s.pcs ==> s.pcs[u] != AcquireUnlock(g, true) && !Initialising(s, u, g)
  {
    Extend(Init(tasks), acts, r, Continue(t));
    ReadyForever(tasks, acts + [Continue(t)], Step(r, Continue(t)), more, s, g);
    SingleInitialiser(tasks, acts + [Continue(t)] + more, s, t, t, g) by {
      Chain(Init(tasks), acts + [Continue(t)], Step(r, Continue(t)), more, s);
    }
  }

  lemma {:induction false} Chain(r: State, acts: seq<Action>, q: State, more: seq<Action>, s: State)
    requires Reaches(r, acts, q) && Reaches(q, more, s)
    ensures Reaches(r, acts + more, s)
    decreases |acts|
  {
    if acts == [] {
      assert acts + more == more;
    } else {
      assert (acts + more)[1..] == acts[1..] + more;
      Chain(Step(r, acts[0]), acts[1..], q, more, s);
    }
  }

  /** An acquire returns 0 only for a guard that is ready, and 1 only to its one initialiser. */
  lemma ReturnValues(tasks: set<Task>, acts: seq<Action>, s: State, t: Task, g: Guard)
    requires Reaches(Init(tasks), acts, s) && t in s.pcs
    ensures s.pcs[t] == AcquireUnlock(g, false) ==> g in s.ready
    ensures s.pcs[t] == AcquireUnlock(g, true) ==>
              (t, g) in s.owners && g in s.pending && forall u :: (u, g) in s.owners ==> u == t
  {
    InitInv(tasks);
    RunInv(Init(tasks), acts, s);
    assert Locally(s, t, s.pcs[t]);
  }

  // ---- Tokens taken by waiters of another guard --------------------------------

  lemma {:induction false} Extend(r: State, acts: seq<Action>, s: State, a: Action)
    requires Reaches(r, acts, s) && Enabled(s, a)
    ensures Reaches(r, acts + [a], Step(s, a))
    decreases |acts|
  {
    if acts == [] {
      assert [a][1..] == [];
    } else {
      Extend(Step(r, acts[0]), acts[1..], s, a);
      assert (acts + [a])[1..] == acts[1..] + [a];
    }
  }

  lemma {:induction false} ExtendUnnested(r: State, acts: seq<Action>, s: State, a: Action)
    requires Reaches(r, acts, s) && Unnested(r, acts) && Enabled(s, a)
    requires a.CallAcquire? ==> forall g :: (a.t, g) !in s.owners
    ensures Unnested(r, acts + [a])
    decreases |acts|
  {
    if acts == [] {
      assert [a][1..] == [];
    } else {
      ExtendUnnested(Step(r, acts[0]), acts[1..], s, a);
      assert (acts + [a])[1..] == acts[1..] + [a];
    }
  }

  /** Some run leads from `r` to `s`; if `flat`, one without acquires inside initialisers. */
  ghost predicate Reachable(r: State, s: State, flat: bool) {
    exists acts :: Reaches(r, acts, s) && (flat ==> Unnested(r, acts))
  }

  lemma Next(r: State, s: State, a: Action, flat: bool)
    requires Reachable(r, s, flat) && Enabled(s, a)
    requires flat && a.CallAcquire? ==> forall g :: (a.t, g) !in s.owners
    ensures Reachable(r, Step(s, a), flat)
  {
    var acts :| Reaches(r, acts, s) && (flat ==> Unnested(r, acts));
    Extend(r, acts, s, a);
    if flat {
      ExtendUnnested(r, acts, s, a);
    }
  }

  /** An undisturbed acquire of a free guard. */
  lemma AcquireFree(r: State, s: State, t: Task, g: Guard, flat: bool) returns (s': State)
    requires Reachable(r, s, flat) && t in s.pcs && s.pcs[t] == Outside && s.mutex == None
    requires g !in s.pending && g !in s.ready
    requires flat ==> forall h :: (t, h) !in s.owners
    ensures Reachable(r, s', flat)
    ensures s' == s.(pending := s.pending + {g}, owners := s.owners + {(t, g)})
  {
    Next(r, s, CallAcquire(t, g), flat);
    s' := Step(s, CallAcquire(t, g));
    s' := Advance(r, s', t, flat);
    s' := Advance(r, s', t, flat);
    s' := Advance(r, s', t, flat);
    s' := Advance(r, s', t, flat);
    assert s'.pcs == s.pcs;
  }

  lemma Advance(r: State, s: State, t: Task, flat: bool) returns (s': State)
    requires Reachable(r, s, flat) && Enabled(s, Continue(t))
    ensures Reachable(r, s', flat) && s' == Step(s, Continue(t))
  {
    Next(r, s, Continue(t), flat);
    s' := Step(s, Continue(t));
  }

  /** An undisturbed acquire of a pending guard ends blocked on the semaphore. */
  lemma AcquireBusy(r: State, s: State, t: Task, g: Guard, flat: bool) returns (s': State)
    requires Reachable(r, s, flat) && t in s.pcs && s.pcs[t] == Outside && s.mutex == None
    requires g in s.pending
    requires flat ==> forall h :: (t, h) !in s.owners
    ensures Reachable(r, s', flat)
    ensures s' == s.(waiting := s.waiting + 1).To(t, WaitSem(g))
  {
    Next(r, s, CallAcquire(t, g), flat);
    s' := Step(s, CallAcquire(t, g));
    s' := Advance(r, s', t, flat);
    s' := Advance(r, s', t, flat);
    s' := Advance(r, s', t, flat);
  }

  /** A waiter whose guard stays pending uses up a token and is blocked again. */
  lemma Retry(r: State, s: State, t: Task, g: Guard, flat: bool) returns (s': State)
    requires Reachable(r, s, flat) && t in s.pcs && s.pcs[t] == WaitSem(g) && s.mutex == None
    requires g in s.pending && s.sem > 0
    ensures Reachable(r, s', flat)
    ensures s' == s.(sem := s.sem - 1)
  {
    s' := Advance(r, s, t, flat);
    s' := Advance(r, s', t, flat);
    s' := Advance(r, s', t, flat);
    s' := Advance(r, s', t, flat);
    assert s'.pcs == s.pcs;
  }

  lemma {:induction false} SignalAll(r: State, s: State, t: Task, flat: bool) returns (s': State)
    requires Reachable(r, s, flat) && t in s.pcs && s.pcs[t].Signal?
    ensures Reachable(r, s', flat)
    ensures s' == s.(sem := s.sem + s.pcs[t].count).To(t, Signal(0))
    decreases s.pcs[t].count
  {
    if s.pcs[t].count == 0 {
      s' := s;
      assert s'.pcs == s.pcs[t := Signal(0)];
    } else {
      var s1 := Advance(r, s, t, flat);
      s' := SignalAll(r, s1, t, flat);
    }
  }

  /** An undisturbed release hands out one token for every waiting task. */
  lemma Release(r: State, s: State, t: Task, g: Guard, flat: bool) returns (s': State)
    requires Reachable(r, s, flat) && t in s.pcs && s.pcs[t] == Outside && s.mutex == None
    requires (t, g) in s.owners
    ensures Reachable(r, s', flat)
    ensures s' == s.(pending := s.pending - {g}, ready := s.ready + {g},
                     owners := s.owners - {(t, g)}, sem := s.sem + s.waiting)
  {
    Next(r, s, CallRelease(t, g), flat);
    s' := Step(s, CallRelease(t, g));
    s' := Advance(r, s', t, flat);
    s' := Advance(r, s', t, flat);
    s' := SignalAll(r, s', t, flat);
    s' := Advance(r, s', t, flat);
    s' := Advance(r, s', t, flat);
    assert s'.pcs == s.pcs;
  }

  /** Task 1 runs the initialiser of guard 2 and waits for guard 1; task 2 waits for guard 2. */
  lemma NestedWait() returns (s: State)
    ensures Reachable(Init({0, 1, 2}), s, false)
    ensures s == State(map[0 := Outside, 1 := WaitSem(1), 2 := WaitSem(2)], None, 0, 2,
                       {1, 2}, {}, {(0, 1), (1, 2)})
  {
    var r := Init({0, 1, 2});
    assert Reaches(r, [], r);
    s := AcquireFree(r, r, 0, 1, false);
    s := AcquireFree(r, s, 1, 2, false);
    s := AcquireBusy(r, s, 1, 1, false);
    s := AcquireBusy(r, s, 2, 2, false);
  }

  /**
   While a guard is pending, a waiter can be left without a token. Task 1
   initialises guard 2 and, inside that initialiser, waits for guard 1; task 2
   waits for guard 2. When task 0 releases guard 1, task 2 takes both tokens.
   Guard 1 is ready, yet neither waiter can go on until some task calls acquire
   anew and ends an initialisation.
   */
  lemma TokensCanBeStolen() returns (s: State)
    ensures Reachable(Init({0, 1, 2}), s, false)
    ensures s.pcs == map[0 := Outside, 1 := WaitSem(1), 2 := WaitSem(2)]
    ensures 1 in s.ready && s.pending == {2} && s.owners == {(1, 2)} && s.sem == 0
    ensures s.mutex == None && s.waiting == 2 && s.ready == {1}
    ensures forall a :: Enabled(s, a) ==> a == CallAcquire(0, a.g)
  {
    var r := Init({0, 1, 2});
    s := NestedWait();
    s := Release(r, s, 0, 1, false);
    s := Retry(r, s, 2, 2, false);
    s := Retry(r, s, 2, 2, false);
  }

  /**
   They are stuck only until another initialisation ends: when task 0 runs the
   initialiser of a third guard, its release hands out two tokens.
   */
  lemma AnotherReleaseHelps() returns (s: State)
    ensures Reachable(Init({0, 1, 2}), s, false)
    ensures s.pcs == map[0 := Outside, 1 := WaitSem(1), 2 := WaitSem(2)] && 1 in s.ready
    ensures s.sem == 2 && Enabled(s, Continue(1)) && Enabled(s, Continue(2))
  {
    var r := Init({0, 1, 2});
    s := TokensCanBeStolen();
    s := AcquireFree(r, s, 0, 3, false);
    s := Release(r, s, 0, 3, false);
  }

  /** The next statement of acquire. */
  lemma AcquireGoesOn(s: State, t: Task, g: Guard)
    requires Inv(s) && t in s.pcs && s.pcs[t].Acquiring(g) && Enabled(s, Continue(t))
    ensures var s' := Step(s, Continue(t));
            && t in s'.pcs && (s'.pcs[t] == Outside || s'.pcs[t].Acquiring(g))
            && (s'.sem < s.sem || (s'.sem == s.sem && s'.pcs[t].Rank() < s.pcs[t].Rank()))
            && (s'.pcs[t] == Outside ==>
                  && s.pcs[t].AcquireUnlock?
                  && if s.pcs[t].ret then (t, g) in s'.owners && g in s'.pending else g in s'.ready)
  {
    assert Locally(s, t, s.pcs[t]);
  }

  /** The next statement of release or abort. */
  lemma EndGoesOn(s: State, t: Task, g: Guard, success: bool)
    requires Inv(s) && t in s.pcs && s.pcs[t].Ending(g, success) && Enabled(s, Continue(t))
    ensures var s' := Step(s, Continue(t));
            && t in s'.pcs && (s'.pcs[t] == Outside || s'.pcs[t].Ending(g, success))
            && (s'.pcs[t].Rank() < s.pcs[t].Rank()
                || (s'.pcs[t].Rank() == s.pcs[t].Rank() && s'.pcs[t].Tokens() < s.pcs[t].Tokens()))
            && (s.pcs[t].EndSet? ==> (t, g) !in s'.owners && (success ==> g in s'.ready))
            && (!s.pcs[t].EndSet? ==> s'.owners == s.owners && s'.ready == s.ready)
  {
  }

  // ---- The same steps, in place --------------------------------------------------

  /** The shared variables of the run-time library and the tasks' positions. */
  class Runtime {
    var pcs: map<Task, PC>
    var mutex: Option<Task>
    var waitSem: nat
    var waitingCount: nat
    var pending: set<Guard>
    var ready: set<Guard>
    var owners: set<(Task, Guard)>

    function Now(): State
      reads this
    {
      State(pcs, mutex, waitSem, waitingCount, pending, ready, owners)
    }

    ghost predicate Valid()
      reads this
    {
      Inv(Now())
    }

    constructor (tasks: set<Task>)
      ensures Valid() && Now() == Init(tasks)
    {
      pcs := map t | t in tasks :: Outside;
      mutex, waitSem, waitingCount := None, 0, 0;
      pending, ready, owners := {}, {}, {};
      InitInv(tasks);
    }

    /** Task `t` enters one of the three functions. */
    method Call(t: Task, call: Action)
      requires Valid() && !call.Continue? && call.t == t && Enabled(Now(), call)
      modifies this
      ensures Valid() && Now() == Step(old(Now()), call)
    {
      StepInv(Now(), call);
      match call {
        case CallAcquire(_, g) => pcs := pcs[t := AcquireLock(g)];
        case CallRelease(_, g) => pcs := pcs[t := EndLock(g, true)];
        case CallAbort(_, g) => pcs := pcs[t := EndLock(g, false)];
      }
    }

    /** Task `t` executes one statement. */
    method Execute(t: Task)
      requires Valid() && Enabled(Now(), Continue(t))
      modifies this
      ensures Valid() && Now() == Step(old(Now()), Continue(t))
    {
      StepInv(Now(), Continue(t));
      var next;
      match pcs[t] {
        case AcquireLock(g) =>
          mutex := Some(t);
          next := AcquireTest(g);
        case AcquireTest(g) =>
          next := AcquireDecide(g);
          if g in pending {
            waitingCount := waitingCount + 1;
            next := WaitUnlock(g);
          }
        case WaitUnlock(g) =>
          mutex := None;
          next := WaitSem(g);
        case WaitSem(g) =>
          waitSem := waitSem - 1;
          next := WaitLock(g);
        case WaitLock(g) =>
          mutex := Some(t);
          next := WaitTest(g);
        case WaitTest(g) =>
          next := WaitUnlock(g);
          if g !in pending {
            WaiterIsCounted(Now(), t);
            waitingCount := waitingCount - 1;
            next := AcquireDecide(g);
          }
        case AcquireDecide(g) =>
          next := AcquireUnlock(g, false);
          if g !in ready {
            pending, owners := pending + {g}, owners + {(t, g)};
            next := AcquireUnlock(g, true);
          }
        case AcquireUnlock(_, _) =>
          mutex := None;
          next := Outside;
        case EndLock(g, success) =>
          mutex := Some(t);
          next := EndSet(g, success);
        case EndSet(g, success) =>
          pending, owners := pending - {g}, owners - {(t, g)};
          if success {
            ready := ready + {g};
          }
          next := Signal(waitingCount);
        case Signal(n) =>
          next := EndUnlock;
          if n > 0 {
            waitSem := waitSem + 1;
            next := Signal(n - 1);
          }
        case EndUnlock =>
          mutex := None;
          next := Outside;
      }
      pcs := pcs[t := next];
    }

    /** Another task than `t` takes a step, if it can. */
    method Other(t: Task, a: Action)
      requires Valid() && t in pcs
      modifies this
      ensures Valid() && t in pcs && pcs[t] == old(pcs[t]) && old(ready) <= ready
      ensures forall g :: (t, g) in owners <==> (t, g) in old(owners)
    {
      if Enabled(Now(), a) && a.t != t {
        if a.Continue? {
          Execute(a.t);
        } else {
          Call(a.t, a);
        }
      }
    }

    /**
     A whole call of acquire. Between its statements the other tasks take any
     steps of theirs; when these run out while the task is blocked, the result is
     None. It returns 1 to the one task that is to initialise the guard, and 0 for a
     ready one.
     */
    method Acquire(t: Task, g: Guard, others: seq<Action>) returns (ret: Option<bool>)
      requires Valid() && t in pcs && pcs[t] == Outside
      modifies this
      ensures Valid() && t in pcs
      ensures ret.Some? ==> pcs[t] == Outside && if ret.value then (t, g) in owners && g in pending else g in ready
    {
      Call(t, CallAcquire(t, g));
      var rest, result := others, false;
      while pcs[t] != Outside
        invariant Valid() && t in pcs && (pcs[t] == Outside || pcs[t].Acquiring(g))
        invariant pcs[t] == Outside ==> if result then (t, g) in owners else g in ready
        decreases |rest|, waitSem, pcs[t].Rank()
      {
        var early: bool := *;
        var able := Enabled(Now(), Continue(t));
        if rest != [] && (early || !able) {
          Other(t, rest[0]);
          rest := rest[1..];
        } else if able {
          AcquireGoesOn(Now(), t, g);
          if pcs[t].AcquireUnlock? {
            result := pcs[t].ret;
          }
          Execute(t);
        } else {
          return None;
        }
      }
      return Some(result);
    }

    /** A whole call of release, or of abort, by the task that initialises the guard. */
    method End(t: Task, g: Guard, success: bool, others: seq<Action>) returns (done: bool)
      requires Valid() && t in pcs && pcs[t] == Outside && (t, g) in owners
      modifies this
      ensures Valid() && t in pcs
      ensures done ==> pcs[t] == Outside && (t, g) !in owners && (success ==> g in ready)
    {
      Call(t, if success then CallRelease(t, g) else CallAbort(t, g));
      var rest := others;
      while pcs[t] != Outside
        invariant Valid() && t in pcs && (pcs[t] == Outside || pcs[t].Ending(g, success))
        invariant !pcs[t].EndLock? && !pcs[t].EndSet? ==> (t, g) !in owners && (success ==> g in ready)
        decreases |rest|, pcs[t].Rank(), pcs[t].Tokens()
      {
        var early: bool := *;
        var able := Enabled(Now(), Continue(t));
        if rest != [] && (early || !able) {
          Other(t, rest[0]);
          rest := rest[1..];
        } else if able {
          EndGoesOn(Now(), t, g, success);
          Execute(t);
        } else {
          return false;
        }
      }
      return true;
    }
  }
}
