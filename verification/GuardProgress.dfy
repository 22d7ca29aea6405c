/**
 What the guards of `GuardProtocol` come to: when a waiter is left without a token
 although its guard is ready, and how long that can last. It takes tasks that wait
 for two guards at once; and when no new acquires begin, every schedule ends, with
 nobody waiting or, after acquires inside initialisers, in a deadlock.
 */
module GuardProgress {
  import opened Sequences
  import opened GuardProtocol

  // ---- Waiting for one guard at a time -------------------------------------------

  /** All tasks in the wait loop wait for the same guard. */
  ghost predicate OneGuard(s: State) {
    forall t, u :: t in InLoop(s.pcs) && u in InLoop(s.pcs) ==> s.pcs[t].g == s.pcs[u].g
  }

  /** So it is in each state of a run but perhaps the last one. */
  ghost predicate OneGuardRun(r: State, acts: seq<Action>)
    decreases |acts|
  {
    acts == []
    || (Enabled(r, acts[0]) && OneGuard(r) && OneGuardRun(Step(r, acts[0]), acts[1..]))
  }

  /** Task `t` waits for a guard that is pending no more. */
  ghost predicate WaitsInVain(s: State, t: Task) {
    t in InLoop(s.pcs) && s.pcs[t].g !in s.pending
  }

  /** Then, once the signalling is over, tokens cover all blocked tasks. */
  ghost predicate Served(s: State) {
    !Signalling(s) && (exists t :: WaitsInVain(s, t)) ==> |Blocked(s.pcs)| <= s.sem
  }

  lemma ServedStep(s: State, a: Action)
    requires Inv(s) && OneGuard(s) && Served(s) && Enabled(s, a)
    ensures Served(Step(s, a))
  {
    var s' := Step(s, a);
    if !Signalling(s') && exists t :: WaitsInVain(s', t) {
      var t :| WaitsInVain(s', t);
      if s.pcs[a.t].Signal? {
        BlockedMoves(s.pcs, a.t, s'.pcs[a.t]);
        assert s'.pcs[a.t] == EndUnlock;
      } else {
        if u :| u in s.pcs && s.pcs[u].Signal? {
          OthersKeepSignalling(s, a, u);
        }
        VainBefore(s, a, t);
        UncoveredStep(s, a, t);
      }
    }
  }

  /** Only ending an initialisation, after which tokens are handed out, makes a wait vain. */
  lemma VainBefore(s: State, a: Action, t: Task)
    requires Inv(s) && Enabled(s, a) && WaitsInVain(Step(s, a), t)
    ensures WaitsInVain(s, t) || Signalling(Step(s, a))
  {
    assert s.pcs[a.t].EndSet? ==> Step(s, a).pcs[a.t].Signal?;
  }

  /** While a wait is vain, no other task of the same loop goes back to block. */
  lemma UncoveredStep(s: State, a: Action, t: Task)
    requires Inv(s) && OneGuard(s) && Enabled(s, a) && WaitsInVain(s, t) && !s.pcs[a.t].Signal?
    requires |Blocked(s.pcs)| <= s.sem
    ensures |Blocked(Step(s, a).pcs)| <= Step(s, a).sem
  {
    if s.pcs[a.t].Critical() {
      assert Locally(s, a.t, s.pcs[a.t]);
      assert s.pcs[a.t].WaitUnlock? ==> a.t in InLoop(s.pcs);
      BlockedMoves(s.pcs, a.t, Step(s, a).pcs[a.t]);
    } else {
      BlockedStep(s, a);
    }
  }

  lemma {:induction false} ServedRun(r: State, acts: seq<Action>, s: State)
    requires Inv(r) && Served(r) && Reaches(r, acts, s) && OneGuardRun(r, acts)
    ensures Served(s)
    decreases |acts|
  {
    if acts != [] {
      StepInv(r, acts[0]);
      ServedStep(r, acts[0]);
      ServedRun(Step(r, acts[0]), acts[1..], s);
    }
  }

  /**
   While the waiting tasks always wait for one and the same guard, no token is
   lost: once that guard is pending no more and the signalling is over, every
   blocked task has a token, whatever other guards are pending.
   */
  lemma OneGuardIsServed(tasks: set<Task>, acts: seq<Action>, s: State, t: Task)
    requires Reaches(Init(tasks), acts, s) && OneGuardRun(Init(tasks), acts)
    requires WaitsInVain(s, t) && !Signalling(s)
    ensures |Blocked(s.pcs)| <= s.sem
    ensures forall u :: u in Blocked(s.pcs) ==> Enabled(s, Continue(u))
  {
    InitInv(tasks);
    assert InLoop(Init(tasks).pcs) == {};
    ServedRun(Init(tasks), acts, s);
    if u :| u in Blocked(s.pcs) {
      Subset({u}, Blocked(s.pcs));
    }
  }

  // ---- Waiting for two guards at once --------------------------------------------

  lemma {:induction false} UseUp(r: State, s: State, u: Task, h: Guard, flat: bool) returns (s': State)
    requires Reachable(r, s, flat) && u in s.pcs && s.pcs[u] == WaitSem(h) && s.mutex == None && h in s.pending
    ensures Reachable(r, s', flat) && s' == s.(sem := 0)
    decreases s.sem
  {
    s' := s;
    if s.sem > 0 {
      s' := Retry(r, s, u, h, flat);
      s' := UseUp(r, s', u, h, flat);
    }
  }

  /**
   But when tasks `v` and `u` are blocked for two guards, of which that of `v` is
   pending no more and that of `u` is, the token of `v` can be lost, together with
   all others.
   */
  lemma OtherGuardTakesTokens(r: State, s: State, v: Task, g: Guard, u: Task, h: Guard, flat: bool)
      returns (s': State)
    requires Reachable(r, s, flat) && s.mutex == None
    requires v in s.pcs && s.pcs[v] == WaitSem(g) && g !in s.pending
    requires u in s.pcs && s.pcs[u] == WaitSem(h) && h in s.pending
    ensures Reachable(r, s', flat) && s' == s.(sem := 0)
    ensures WaitsInVain(s', v) && !Enabled(s', Continue(v))
  {
    s' := UseUp(r, s, u, h, flat);
  }

  /**
   So it is when both are pending and the task that initialises the first one is
   about to end that: then its guard is ready, `v` is still blocked, and no token is
   left. That holds also among runs without acquires inside initialisers.
   */
  lemma TwoGuardsLoseToken(r: State, s: State, t: Task, v: Task, g: Guard, u: Task, h: Guard, flat: bool)
      returns (s': State)
    requires Reachable(r, s, flat) && s.mutex == None
    requires t in s.pcs && s.pcs[t] == Outside && (t, g) in s.owners
    requires v in s.pcs && s.pcs[v] == WaitSem(g)
    requires u in s.pcs && s.pcs[u] == WaitSem(h) && h in s.pending && g != h
    ensures Reachable(r, s', flat)
    ensures s' == s.(pending := s.pending - {g}, ready := s.ready + {g}, owners := s.owners - {(t, g)}, sem := 0)
    ensures WaitsInVain(s', v) && g in s'.ready && !Enabled(s', Continue(v))
  {
    s' := Release(r, s, t, g, flat);
    s' := OtherGuardTakesTokens(r, s', v, g, u, h, flat);
  }

  /** Tasks 1 and 2 wait for guards 1 and 2, which tasks 0 and 3 initialise. */
  lemma TwoWaits() returns (s: State)
    ensures Reachable(Init({0, 1, 2, 3}), s, true)
    ensures s == State(map[0 := Outside, 1 := WaitSem(1), 2 := WaitSem(2), 3 := Outside], None, 0, 2,
                       {1, 2}, {}, {(0, 1), (3, 2)})
  {
    var r := Init({0, 1, 2, 3});
    assert Reaches(r, [], r);
    s := AcquireFree(r, r, 0, 1, true);
    s := AcquireFree(r, s, 3, 2, true);
    assert s.owners == {(0, 1), (3, 2)} && s.pending == {1, 2};
    s := AcquireBusy(r, s, 1, 1, true);
    s := AcquireBusy(r, s, 2, 2, true);
  }

  /** So a token can be lost without any nesting; the end of the other initialisation makes up for it. */
  lemma LostWithoutNesting() returns (s: State, s': State)
    ensures Reachable(Init({0, 1, 2, 3}), s, true) && Reachable(Init({0, 1, 2, 3}), s', true)
    ensures s.pcs == map[0 := Outside, 1 := WaitSem(1), 2 := WaitSem(2), 3 := Outside]
    ensures s.ready == {1} && s.pending == {2} && s.owners == {(3, 2)} && s.sem == 0
    ensures s'.pcs == s.pcs && s'.ready == {1, 2} && s'.sem == 2
  {
    var r := Init({0, 1, 2, 3});
    s := TwoWaits();
    s := TwoGuardsLoseToken(r, s, 0, 1, 1, 2, 2, true);
    s' := Release(r, s, 3, 2, true);
  }

  /** Task 1 has its token for guard 1, which is ready, when the initialisation of guard 2 begins. */
  lemma NotYetTaken() returns (s: State)
    ensures Reachable(Init({0, 1, 2, 3}), s, true)
    ensures s == State(map[0 := Outside, 1 := WaitSem(1), 2 := Outside, 3 := Outside], None, 1, 1,
                       {2}, {1}, {(3, 2)})
  {
    var r := Init({0, 1, 2, 3});
    assert Reaches(r, [], r);
    s := AcquireFree(r, r, 0, 1, true);
    s := AcquireBusy(r, s, 1, 1, true);
    s := Release(r, s, 0, 1, true);
    assert s.owners == {} && s.pending == {} && s.ready == {1} && s.sem == 1;
    s := AcquireFree(r, s, 3, 2, true);
  }

  /** Without nesting, and with the two guards never pending together, it can lose it to task 2. */
  lemma LostOneAfterTheOther() returns (s: State)
    ensures Reachable(Init({0, 1, 2, 3}), s, true)
    ensures s.pcs == map[0 := Outside, 1 := WaitSem(1), 2 := WaitSem(2), 3 := Outside]
    ensures s.ready == {1} && s.pending == {2} && s.owners == {(3, 2)} && s.sem == 0
  {
    var r := Init({0, 1, 2, 3});
    s := NotYetTaken();
    s := AcquireBusy(r, s, 2, 2, true);
    s := OtherGuardTakesTokens(r, s, 1, 1, 2, 2, true);
  }

  // ---- Every schedule without new acquires ends ------------------------------------

  /** The sum of a weight over all tasks. */
  ghost function Total(pcs: map<Task, PC>, weight: PC -> nat): nat
    decreases |pcs|
  {
    if pcs == map[] then 0
    else
      var t :| t in pcs;
      weight(pcs[t]) + Total(pcs - {t}, weight)
  }

  lemma {:induction false} TotalWithout(pcs: map<Task, PC>, weight: PC -> nat, t: Task)
    requires t in pcs
    ensures Total(pcs, weight) == weight(pcs[t]) + Total(pcs - {t}, weight)
    decreases |pcs|
  {
    var u :| u in pcs && Total(pcs, weight) == weight(pcs[u]) + Total(pcs - {u}, weight);
    if u != t {
      TotalWithout(pcs - {u}, weight, t);
      TotalWithout(pcs - {t}, weight, u);
      assert pcs - {u} - {t} == pcs - {t} - {u};
    }
  }

  lemma TotalMoves(pcs: map<Task, PC>, weight: PC -> nat, t: Task, pc: PC)
    requires t in pcs
    ensures Total(pcs[t := pc], weight) + weight(pcs[t]) == Total(pcs, weight) + weight(pc)
  {
    TotalWithout(pcs, weight, t);
    TotalWithout(pcs[t := pc], weight, t);
    assert pcs[t := pc] - {t} == pcs - {t};
  }

  /** Each undecided acquire, and each initialisation that is still to be ended, counts. */
  function Due(pc: PC): nat {
    match pc
    case AcquireLock(_) => 4
    case AcquireTest(_) => 4
    case WaitUnlock(_) => 4
    case WaitSem(_) => 4
    case WaitLock(_) => 4
    case WaitTest(_) => 4
    case AcquireDecide(_) => 4
    case EndLock(_, _) => 0
    case EndSet(_, _) => 0
    case _ => 1
  }

  const DUE: PC -> nat := (pc: PC) => Due(pc)
  const TOKENS: PC -> nat := (pc: PC) => pc.Tokens()
  const RANK: PC -> nat := (pc: PC) => pc.Rank()

  /** What is left to decide and to end. */
  ghost function Decisions(s: State): nat {
    2 * |s.owners| + Total(s.pcs, DUE)
  }

  /** Each step but a call of acquire comes closer to the end, in lexicographic order. */
  ghost predicate Closer(s: State, s': State) {
    || Decisions(s') < Decisions(s)
    || (Decisions(s') == Decisions(s)
        && (|| Total(s'.pcs, TOKENS) < Total(s.pcs, TOKENS)
            || (Total(s'.pcs, TOKENS) == Total(s.pcs, TOKENS)
                && (|| s'.sem < s.sem
                    || (s'.sem == s.sem && Total(s'.pcs, RANK) < Total(s.pcs, RANK))))))
  }

  /** The number of pairs of owners and guards changes by at most one. */
  lemma OwnersStep(s: State, a: Action)
    requires Enabled(s, a) && GuardInv(s)
    ensures var s' := Step(s, a);
            if s.pcs[a.t].EndSet? && a.Continue? then |s'.owners| == |s.owners| - 1
            else if s.pcs[a.t].AcquireDecide? then |s'.owners| <= |s.owners| + 1
            else s'.owners == s.owners
  {
    assert Locally(s, a.t, s.pcs[a.t]);
  }

  lemma DueStep(s: State, a: Action)
    requires Enabled(s, a) && !a.CallAcquire?
    ensures var (p, p') := (s.pcs[a.t], Step(s, a).pcs[a.t]);
            if !a.Continue? then Due(p') == Due(p) - 1
            else if p.EndSet? then Due(p') == Due(p) + 1
            else if p.AcquireDecide? then Due(p') == Due(p) - 3
            else Due(p') == Due(p)
  {
  }

  /** A decision, and beginning and marking the end of an initialisation, leave less to do. */
  lemma DecisionsStep(s: State, a: Action)
    requires Inv(s) && Enabled(s, a) && !a.CallAcquire?
    ensures if !a.Continue? || s.pcs[a.t].AcquireDecide? || s.pcs[a.t].EndSet?
            then Decisions(Step(s, a)) < Decisions(s) else Decisions(Step(s, a)) == Decisions(s)
  {
    OwnersStep(s, a);
    DueStep(s, a);
    TotalMoves(s.pcs, DUE, a.t, Step(s, a).pcs[a.t]);
  }

  /** The other statements use up promised tokens, tokens, or statements. */
  lemma StatementStep(s: State, t: Task)
    requires Enabled(s, Continue(t)) && !s.pcs[t].AcquireDecide? && !s.pcs[t].EndSet?
    ensures var s' := Step(s, Continue(t));
            var (p, p') := (s.pcs[t], s'.pcs[t]);
            || p'.Tokens() < p.Tokens()
            || (p'.Tokens() == p.Tokens() && (s'.sem < s.sem || (s'.sem == s.sem && p'.Rank() < p.Rank())))
  {
  }

  lemma CloserStep(s: State, a: Action)
    requires Inv(s) && Enabled(s, a) && !a.CallAcquire?
    ensures Closer(s, Step(s, a))
  {
    DecisionsStep(s, a);
    if a.Continue? && !s.pcs[a.t].AcquireDecide? && !s.pcs[a.t].EndSet? {
      StatementStep(s, a.t);
      TotalMoves(s.pcs, TOKENS, a.t, Step(s, a).pcs[a.t]);
      TotalMoves(s.pcs, RANK, a.t, Step(s, a).pcs[a.t]);
    }
  }

  /** The action leads from the one state to the other, and is no new acquire. */
  ghost predicate Goes(s: State, a: Action, s': State) {
    Enabled(s, a) && !a.CallAcquire? && s' == Step(s, a)
  }

  lemma {:induction false} Descend(states: nat -> State, acts: nat -> Action, n: nat)
    requires Inv(states(n))
    requires forall k: nat :: Goes(states(k), acts(k), states(k + 1))
    ensures false
    decreases Decisions(states(n)), Total(states(n).pcs, TOKENS), states(n).sem, Total(states(n).pcs, RANK)
  {
    assert Goes(states(n), acts(n), states(n + 1));
    StepInv(states(n), acts(n));
    CloserStep(states(n), acts(n));
    Descend(states, acts, n + 1);
  }

  /** From no reachable state on do the tasks go on for ever unless acquires are called anew. */
  lemma NoEndlessRun(tasks: set<Task>, before: seq<Action>, states: nat -> State, acts: nat -> Action)
    requires Reaches(Init(tasks), before, states(0))
    ensures exists k: nat :: !Goes(states(k), acts(k), states(k + 1))
  {
    InitInv(tasks);
    RunInv(Init(tasks), before, states(0));
    if forall k: nat :: Goes(states(k), acts(k), states(k + 1)) {
      Descend(states, acts, 0);
    }
  }

  /** Nobody is inside one of the three functions, and no initialisation is left to end. */
  ghost predicate Idle(s: State) {
    (forall t :: t in s.pcs ==> s.pcs[t] == Outside) && s.owners == {}
  }

  lemma DeadlockBlocks(s: State)
    requires GuardInv(s) && Deadlocked(s)
    ensures Blocked(s.pcs) != {}
  {
    var g :| g in s.pending;
    var t :| (t, g) in s.owners;
    assert t in Blocked(s.pcs);
  }

  lemma OwnerCanEnd(s: State, t: Task, g: Guard)
    requires t in s.pcs && s.pcs[t] == Outside && (t, g) in s.owners
    ensures !OnlyNewAcquires(s)
  {
    assert Enabled(s, CallRelease(t, g));
  }

  lemma NobodyBlocked(s: State)
    requires Inv(s) && Blocked(s.pcs) == {}
    ensures OnlyNewAcquires(s) <==> Idle(s)
  {
    if OnlyNewAcquires(s) {
      assert s.mutex.Some? ==> Enabled(s, Continue(s.mutex.value));
      forall t | t in s.pcs
        ensures s.pcs[t] == Outside
      {
        assert t !in Blocked(s.pcs) && !Enabled(s, Continue(t));
      }
      if o :| o in s.owners {
        assert (o.0, o.1) in s.owners;
        OwnerCanEnd(s, o.0, o.1);
      }
    }
  }

  /** Where such a run ends, all is idle or there is a deadlock. */
  lemma EndsExactly(tasks: set<Task>, acts: seq<Action>, s: State)
    requires Reaches(Init(tasks), acts, s)
    ensures OnlyNewAcquires(s) <==> Idle(s) || Deadlocked(s)
  {
    InitInv(tasks);
    RunInv(Init(tasks), acts, s);
    if Blocked(s.pcs) != {} {
      StuckExactly(tasks, acts, s);
      var t :| t in Blocked(s.pcs);
      assert s.pcs[t] != Outside;
    } else {
      NobodyBlocked(s);
      if Deadlocked(s) {
        DeadlockBlocks(s);
      }
    }
  }

  /**
   So without acquires inside initialisers every schedule ends with nobody waiting
   and nothing pending, as soon as no task calls acquire anew: a token that was lost
   is a delay and no more.
   */
  lemma UnnestedEndsIdle(tasks: set<Task>, acts: seq<Action>, s: State)
    requires Reaches(Init(tasks), acts, s) && Unnested(Init(tasks), acts)
    ensures OnlyNewAcquires(s) <==> Idle(s)
    ensures Idle(s) ==> Blocked(s.pcs) == {} && s.pending == {}
  {
    EndsExactly(tasks, acts, s);
    InitInv(tasks);
    UnnestedRun(Init(tasks), acts, s);
    RunInv(Init(tasks), acts, s);
    if OnlyNewAcquires(s) && Blocked(s.pcs) != {} {
      UnnestedNeverStuck(tasks, acts, s);
    } else if Blocked(s.pcs) == {} {
      NobodyBlocked(s);
    }
  }
}
