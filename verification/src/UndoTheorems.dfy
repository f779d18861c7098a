/** What the undo history guarantees to whoever presses the buttons. */
module UndoTheorems {
  import opened Graph
  import opened UndoModel

  // The buttons tell the truth, up to one case. -------------------------------------

  /** `CanUndo` holds exactly when pressing undo would restore something. */
  lemma CanUndoIsExact(s: State)
    requires Consistent(s)
    ensures CanUndo(s) <==> Undo(s).1.Some?
  {
  }

  /** Redo restores something exactly when it is offered and no edit is pending:
      recording the pending edit clears what could be redone. */
  lemma RedoNeedsNoPendingEdit(s: State)
    requires Consistent(s)
    ensures Redo(s).1.Some? <==> CanRedo(s) && s.pending.None?
  {
  }

  /** The case where the offer is wrong is reachable: undo an edit, then edit. */
  lemma RedoOfferedInVain(j: Name, w: Name, a: Snapshot, b: Snapshot, c: Snapshot)
    requires a.key != b.key && a.key != c.key
    ensures var s := Run(Initial(j, a), [Observed(j, a, w), Observed(j, b, w), UndoPressed, Observed(j, a, w), Observed(j, c, w)]);
            CanRedo(s) && Redo(s).1.None?
  {
    var s0 := Initial(j, a);
    var s1 := Observe(s0, j, a, w);
    var s2 := Observe(s1, j, b, w);
    assert s2.pending == Some(Pending(j, a, b, false, 0)) && Consistent(s2);
    FlushRecords(s2);
    BackMoves(Flush(s2));
    var s3 := Undo(s2).0;
    assert StackFor(s3, j) == Stack([], [b]);
    ApplyRestored(s3, a);
    var s4 := Observe(s3, j, a, w);
    var s5 := Observe(s4, j, c, w);
    assert s5.pending.Some? && StackFor(s5, j) == Stack([], [b]) && Consistent(s5);
    RedoNeedsNoPendingEdit(s5);
    RunFive(s0, Observed(j, a, w), Observed(j, b, w), UndoPressed, Observed(j, a, w), Observed(j, c, w));
  }

  lemma RunFive(s: State, e0: Event, e1: Event, e2: Event, e3: Event, e4: Event)
    ensures Run(s, [e0, e1, e2, e3, e4]) == Step(Step(Step(Step(Step(s, e0), e1), e2), e3), e4)
  {
    assert [e0, e1, e2, e3, e4] == [e0, e1, e2, e3] + [e4];
    assert [e0, e1, e2, e3] == [e0, e1, e2] + [e3];
    assert [e0, e1, e2] == [e0, e1] + [e2];
    assert [e0, e1] == [e0] + [e1];
    assert [e0] == [] + [e0];
    RunAppend(s, [], e0);
    RunAppend(s, [e0], e1);
    RunAppend(s, [e0, e1], e2);
    RunAppend(s, [e0, e1, e2], e3);
    RunAppend(s, [e0, e1, e2, e3], e4);
  }

  lemma RunAppend(s: State, events: seq<Event>, e: Event)
    ensures Run(s, events + [e]) == Step(Run(s, events), e)
  {
    assert (events + [e])[..|events|] == events;
  }

  /** An undo pressed inside the debounce goes back exactly the pending edit,
      and once it is applied, redo brings that edit back. */
  lemma UndoInsideDebounce(s: State)
    requires Consistent(s) && s.pending.Some?
    ensures var p := s.pending.value;
            var past := StackFor(s, s.job).past;
            var (s1, restored) := Undo(s);
            && restored == Some(p.prev) == Some(s.baseline[s.job])
            && StackFor(s1, s.job) == Stack(if |past| < HISTORY_LIMIT then past else past[1..], [p.settled])
            && Redo(Observe(s1, s.job, p.prev, s.scope.value)).1 == Some(p.settled) == Some(s.latest)
  {
    var p := s.pending.value;
    var past := StackFor(s, s.job).past;
    FlushRecords(s);
    TrimThenPop(past, p.prev);
    BackMoves(Flush(s));
    var s1 := Undo(s).0;
    assert StackFor(s1, s.job).future == [p.settled];
    ApplyRestored(s1, p.prev);
    var s2 := Observe(s1, s.job, p.prev, s.scope.value);
    assert Flush(s2) == s2 && StackFor(s2, s.job) == StackFor(s1, s.job);
    ForwardMoves(s2);
  }

  lemma TrimThenPop(past: seq<Snapshot>, x: Snapshot)
    requires |past| <= HISTORY_LIMIT
    ensures var t := Trim(past + [x]);
            && t != [] && t[|t| - 1] == x
            && t[..|t| - 1] == if |past| < HISTORY_LIMIT then past else past[1..]
  {
  }

  // Isolation. -----------------------------------------------------------------------

  /** The current workspace, and what was observed in it so far, by pipeline. */
  datatype Log = Log(scope: Option<Name>, seen: set<(Name, Snapshot)>, job: Name)

  function Extend(log: Log, e: Event): Log {
    match e
    case Observed(job, snapshot, scope) =>
      if log.scope != Some(scope) then Log(Some(scope), {(job, snapshot)}, job)
      else Log(log.scope, log.seen + {(job, snapshot)}, job)
    case _ => log
  }

  function LogOf(start: Name, events: seq<Event>): Log {
    if events == [] then Log(None, {}, start) else Extend(LogOf(start, events[..|events| - 1]), events[|events| - 1])
  }

  ghost predicate AllSeen(xs: seq<Snapshot>, j: Name, seen: set<(Name, Snapshot)>) {
    forall i :: 0 <= i < |xs| ==> (j, xs[i]) in seen
  }

  ghost predicate StackSeen(st: Stack, j: Name, seen: set<(Name, Snapshot)>) {
    AllSeen(st.past, j, seen) && AllSeen(st.future, j, seen)
  }

  /** Everything the history holds for a pipeline was observed for it. */
  ghost predicate OnlySeen(s: State, log: Log) {
    && s.scope == log.scope && s.job == log.job
    && (forall j {:trigger s.stacks[j]} :: j in s.stacks ==> StackSeen(s.stacks[j], j, log.seen))
    && (forall j {:trigger s.baseline[j]} :: j in s.baseline ==> (j, s.baseline[j]) in log.seen)
    && (s.pending.Some? ==> (s.pending.value.job, s.pending.value.prev) in log.seen)
    && (s.pending.Some? ==> (s.pending.value.job, s.pending.value.settled) in log.seen)
    && (s.scope.Some? ==> (s.job, s.latest) in log.seen)
  }

  lemma CommitSeen(s: State, log: Log)
    requires OnlySeen(s, log)
    ensures OnlySeen(Commit(s), log)
  {
    if s.pending.Some? {
      assert StackSeen(StackFor(s, s.pending.value.job), s.pending.value.job, log.seen);
    }
  }

  lemma BackSeen(s: State, log: Log)
    requires OnlySeen(s, log) && s.pending.None? && (s.scope.None? ==> StackFor(s, s.job).past == [])
    ensures OnlySeen(Back(s).0, log)
    ensures Back(s).1.Some? ==> (log.job, Back(s).1.value) in log.seen
  {
    assert StackSeen(StackFor(s, s.job), s.job, log.seen);
  }

  lemma ForwardSeen(s: State, log: Log)
    requires OnlySeen(s, log) && s.pending.None? && (s.scope.None? ==> StackFor(s, s.job).future == [])
    ensures OnlySeen(Forward(s).0, log)
    ensures Forward(s).1.Some? ==> (log.job, Forward(s).1.value) in log.seen
  {
    assert StackSeen(StackFor(s, s.job), s.job, log.seen);
  }

  lemma PressSeen(s: State, log: Log)
    requires OnlySeen(s, log) && Consistent(s)
    ensures OnlySeen(Undo(s).0, log) && OnlySeen(Redo(s).0, log)
    ensures Undo(s).1.Some? ==> (log.job, Undo(s).1.value) in log.seen
    ensures Redo(s).1.Some? ==> (log.job, Redo(s).1.value) in log.seen
  {
    CommitSeen(CancelTimer(s), log);
    FlushConsistent(s);
    BackSeen(Flush(s), log);
    ForwardSeen(Flush(s), log);
  }

  /** Nothing is lost from the log while the workspace stays the same. */
  lemma MoreSeen(s: State, log: Log, more: set<(Name, Snapshot)>)
    requires OnlySeen(s, log)
    ensures OnlySeen(s, log.(seen := log.seen + more))
  {
    forall j | j in s.stacks
      ensures StackSeen(s.stacks[j], j, log.seen + more)
    {
    }
  }

  lemma ObserveSeen(s: State, log: Log, job: Name, snapshot: Snapshot, scope: Name)
    requires OnlySeen(s, log)
    ensures OnlySeen(Observe(s, job, snapshot, scope), Extend(log, Observed(job, snapshot, scope)))
  {
    if s.scope == Some(scope) {
      MoreSeen(s, log, {(job, snapshot)});
      if s.job != job {
        CommitSeen(CancelTimer(s), log);
        MoreSeen(Flush(s), log, {(job, snapshot)});
        SwitchSeen(s, log, job, snapshot, scope);
      }
    }
  }

  lemma SwitchSeen(s: State, log: Log, job: Name, snapshot: Snapshot, scope: Name)
    requires OnlySeen(Flush(s), log.(seen := log.seen + {(job, snapshot)}))
    requires s.scope == Some(scope) && s.job != job
    ensures OnlySeen(Observe(s, job, snapshot, scope), Log(log.scope, log.seen + {(job, snapshot)}, job))
  {
    var f := Flush(s.(latest := snapshot, editNoted := false));
    assert f == Flush(s).(latest := snapshot, editNoted := false);
    assert StackSeen(StackFor(f, job), job, log.seen + {(job, snapshot)});
  }

  lemma StepSeen(s: State, log: Log, e: Event)
    requires OnlySeen(s, log) && Consistent(s)
    ensures OnlySeen(Step(s, e), Extend(log, e))
  {
    match e
    case Observed(job, snapshot, scope) => ObserveSeen(s, log, job, snapshot, scope);
    case UndoPressed => PressSeen(s, log);
    case RedoPressed => PressSeen(s, log);
    case TimerFired(timer) => CommitSeen(s.(armed := s.armed - {timer}), log);
    case _ =>
  }

  /** Isolation: whatever undo or redo restores, in any run, was observed for the
      pipeline observed last, in the current workspace, since it was opened. */
  lemma {:induction false} RestoredWasSeen(j: Name, initial: Snapshot, events: seq<Event>)
    ensures var s := Run(Initial(j, initial), events);
            var log := LogOf(j, events);
            && OnlySeen(s, log)
            && (Undo(s).1.Some? ==> (log.job, Undo(s).1.value) in log.seen)
            && (Redo(s).1.Some? ==> (log.job, Redo(s).1.value) in log.seen)
  {
    if events != [] {
      var front, last := events[..|events| - 1], events[|events| - 1];
      RestoredWasSeen(j, initial, front);
      RunConsistent(j, initial, front);
      StepSeen(Run(Initial(j, initial), front), LogOf(j, front), last);
    }
    RunConsistent(j, initial, events);
    PressSeen(Run(Initial(j, initial), events), LogOf(j, events));
  }

  /** Switching pipelines records the pending edit where it was made, and
      touches no other stack. */
  lemma SwitchRecordsPending(s: State, job: Name, snapshot: Snapshot)
    requires Consistent(s) && s.scope.Some? && s.job != job && s.pending.Some?
    ensures var s1 := Observe(s, job, snapshot, s.scope.value);
            var p := s.pending.value;
            && StackFor(s1, s.job) == Stack(Trim(StackFor(s, s.job).past + [p.prev]), [])
            && s1.baseline[s.job] == p.settled
            && forall j :: j != s.job ==> StackFor(s1, j) == StackFor(s, j)
  {
  }

  /** A new workspace starts from nothing: the state after the first observation
      in it does not depend on anything before, but for how timers are numbered. */
  lemma NewScopeForgets(s: State, t: State, job: Name, snapshot: Snapshot, scope: Name)
    requires Consistent(s) && Consistent(t) && s.scope != Some(scope) && t.scope != Some(scope)
    ensures Observe(s, job, snapshot, scope).(nextTimer := 0) == Observe(t, job, snapshot, scope).(nextTimer := 0)
    ensures Undo(Observe(s, job, snapshot, scope)).1 == None && Redo(Observe(s, job, snapshot, scope)).1 == None
  {
  }
}
