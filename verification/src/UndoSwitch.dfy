/** Leaving a pipeline and coming back: what the history keeps for each pipeline. */
module UndoSwitch {
  import opened Graph
  import opened UndoModel
  import opened UndoTimeline

  /** Recording drops the oldest entry exactly where there are fifty already. */
  lemma RecordDropsOldest(s: State)
    requires Consistent(s) && s.pending.Some?
    ensures var past := StackFor(s, s.job).past;
            StackFor(Flush(s), s.job)
            == Stack((if |past| < 50 then past else past[1..]) + [s.pending.value.prev], [])
  {
    FlushRecords(s);
  }

  // One switch. ---------------------------------------------------------------------------

  /** A switch changes the stack and the baseline of the pipeline that is left only by
      recording its pending edit, re-baselines the one arrived at, whose stack stays,
      and touches no other. */
  lemma SwitchKeeps(s: State, job: Name, snapshot: Snapshot)
    requires Consistent(s) && s.scope.Some? && job != s.job
    ensures var t := Observe(s, job, snapshot, s.scope.value);
            && (forall j :: j != s.job ==> StackFor(t, j) == StackFor(s, j))
            && (s.pending.None? ==> StackFor(t, s.job) == StackFor(s, s.job) && t.baseline[s.job] == s.baseline[s.job])
            && (s.pending.Some? ==>
                  var past := StackFor(s, s.job).past;
                  && StackFor(t, s.job) == Stack((if |past| < 50 then past else past[1..]) + [s.baseline[s.job]], [])
                  && t.baseline[s.job] == s.latest)
            && t.baseline.Keys == s.baseline.Keys + {job}
            && (forall j :: j in s.baseline && j != s.job && j != job ==> t.baseline[j] == s.baseline[j])
            && t.baseline[job] == snapshot == t.latest && t.job == job && t.scope == s.scope
            && t.pending.None? && t.armed == {} && !t.editNoted && t.suppress == s.suppress
  {
    if s.pending.Some? {
      FlushRecords(s);
    }
  }

  /** A restore that was not applied before a switch is mistaken for the first change
      made after it: that change is recorded exactly when no restore was waiting. */
  lemma EditAfterSwitchIff(s: State, job: Name, snapshot: Snapshot, next: Snapshot)
    requires Consistent(s) && s.scope.Some? && job != s.job && next.key != snapshot.key
    ensures var t := Observe(Observe(s, job, snapshot, s.scope.value), job, next, s.scope.value);
            t.pending.Some? <==> !s.suppress
  {
    SwitchKeeps(s, job, snapshot);
  }

  // Elsewhere. ----------------------------------------------------------------------------

  /** Anything may happen in the workspace but an observation of the pipeline. */
  predicate Elsewhere(e: Event, home: Name, scope: Name) {
    e.Observed? ==> e.job != home && e.scope == scope
  }

  /** What the history holds for a pipeline is out of reach from the others. */
  ghost predicate KeptFor(home: Name, s: State, t: State) {
    && t.scope == s.scope && t.job != home
    && StackFor(t, home) == StackFor(s, home)
    && (home in s.baseline ==> home in t.baseline && t.baseline[home] == s.baseline[home])
  }

  lemma StepElsewhere(home: Name, s: State, e: Event)
    requires Consistent(s) && s.scope.Some? && s.job != home && Elsewhere(e, home, s.scope.value)
    ensures KeptFor(home, s, Step(s, e))
  {
    match e
    case Observed(job, snapshot, scope) =>
      if job != s.job {
        SwitchKeeps(s, job, snapshot);
      }
    case _ =>
  }

  lemma {:induction false} RunElsewhere(home: Name, s: State, events: seq<Event>)
    requires Consistent(s) && s.scope.Some? && s.job != home
    requires forall e :: e in events ==> Elsewhere(e, home, s.scope.value)
    ensures Consistent(Run(s, events)) && KeptFor(home, s, Run(s, events))
  {
    if events != [] {
      var front, last := events[..|events| - 1], events[|events| - 1];
      RunElsewhere(home, s, front);
      assert last in events;
      StepConsistent(Run(s, front), last);
      StepElsewhere(home, Run(s, front), last);
    }
  }

  /** The round trip: leave a pipeline after any actions on it, do anything elsewhere in
      the workspace, and come back to what was on the canvas. The timeline is there as
      recorded, and undo and redo restore what they would have restored. */
  lemma RoundTrip(s: State, away: Name, seen: Snapshot, events: seq<Event>, back: Snapshot)
    requires AtRest(s) && away != s.job && back.key == s.latest.key
    requires forall e :: e in events ==> Elsewhere(e, s.job, s.scope.value)
    ensures var left := Observe(s, away, seen, s.scope.value);
            var r := Observe(Run(left, events), s.job, back, s.scope.value);
            && Consistent(r) && r.job == s.job && r.scope == s.scope && r.latest == back
            && TimelineOf(r) == TimelineOf(Flush(s))
            && Undo(r).1 == Undo(s).1 && Redo(r).1 == Redo(s).1
            && (AtRest(r) <==> !Run(left, events).suppress)
  {
    var scope := s.scope.value;
    RecordRefines(s);
    ObserveConsistent(s, away, seen, scope);
    SwitchKeeps(s, away, seen);
    LeftIsFlushed(s, away, seen);
    var left := Observe(s, away, seen, scope);
    RunElsewhere(s.job, left, events);
    var m := Run(left, events);
    ObserveConsistent(m, s.job, back, scope);
    SwitchKeeps(m, s.job, back);
    SameStackSamePress(Observe(m, s.job, back, scope), Flush(s));
  }

  lemma LeftIsFlushed(s: State, away: Name, seen: Snapshot)
    requires Consistent(s) && s.scope.Some? && away != s.job
    ensures var left := Observe(s, away, seen, s.scope.value);
            StackFor(left, s.job) == StackFor(Flush(s), s.job) && left.baseline[s.job] == Flush(s).baseline[s.job]
  {
  }

  lemma SameStackSamePress(s: State, t: State)
    requires s.job == t.job && s.pending.None? && t.pending.None? && StackFor(s, s.job) == StackFor(t, t.job)
    ensures Undo(s).1 == Undo(t).1 && Redo(s).1 == Redo(t).1
  {
  }

  /** After any actions on a pipeline that was opened in a workspace. */
  lemma RoundTripAfterActions(s: State, actions: seq<Action>, away: Name, seen: Snapshot, events: seq<Event>, back: Snapshot)
    requires AtRest(s) && away != s.job && back.key == PerformAll(s, actions).latest.key
    requires forall e :: e in events ==> Elsewhere(e, s.job, s.scope.value)
    ensures var p := PerformAll(s, actions);
            var r := Observe(Run(Observe(p, away, seen, s.scope.value), events), s.job, back, s.scope.value);
            Consistent(r) && r.job == s.job && TimelineOf(r) == Record(IdealAll(TimelineOf(s), actions))
  {
    var p := PerformAll(s, actions);
    HistoryRefinesTimeline(s, actions);
    RecordRefines(p);
    RoundTrip(p, away, seen, events, back);
  }

  // Leaving the editor. ---------------------------------------------------------------------

  /** Disposing drops the pending edit: no timer that fires later changes anything. */
  lemma DisposedRecordsNothing(s: State, timer: nat)
    requires Consistent(s)
    ensures var d := Dispose(s);
            d.pending.None? && d.stacks == s.stacks && d.baseline == s.baseline && d.latest == s.latest
            && TimerFires(d, timer) == d
  {
  }
}
