/** The undo history of the canvas, as a state machine over values. */
module UndoModel {
  import opened Graph

  /** Names of pipelines and of workspaces. */
  type Name(==, !new)

  /** What a user can edit, and what runs and selections add to it. */
  type Key(==, !new)
  type Rest(==, !new)

  /** A canvas document: the part that counts as an edit, and the rest. */
  datatype Snapshot = Snapshot(key: Key, rest: Rest)

  datatype Stack = Stack(past: seq<Snapshot>, future: seq<Snapshot>)

  /** An edit still inside its debounce; `timer` is the timer that will record it. */
  datatype Pending = Pending(job: Name, prev: Snapshot, settled: Snapshot, noted: bool, timer: nat)

  const HISTORY_LIMIT := 50

  /** `armed`: the timers set and neither fired nor cancelled. */
  datatype State = State(
    stacks: map<Name, Stack>,
    baseline: map<Name, Snapshot>,
    pending: Option<Pending>,
    suppress: bool,
    editNoted: bool,
    scope: Option<Name>,
    job: Name,
    latest: Snapshot,
    armed: set<nat>,
    nextTimer: nat)

  function Initial(job: Name, initial: Snapshot): State {
    State(map[], map[], None, false, false, None, job, initial, {}, 0)
  }

  function StackFor(s: State, job: Name): Stack {
    if job in s.stacks then s.stacks[job] else Stack([], [])
  }

  function Trim(past: seq<Snapshot>): seq<Snapshot> {
    if |past| > HISTORY_LIMIT then past[1..] else past
  }

  function Commit(s: State): State {
    match s.pending
    case None => s
    case Some(p) =>
      s.(pending := None,
         stacks := s.stacks[p.job := Stack(Trim(StackFor(s, p.job).past + [p.prev]), [])],
         baseline := s.baseline[p.job := p.settled])
  }

  function CancelTimer(s: State): State {
    match s.pending
    case None => s
    case Some(p) => s.(armed := s.armed - {p.timer})
  }

  function Flush(s: State): State {
    Commit(CancelTimer(s))
  }

  function Observe(s0: State, job: Name, snapshot: Snapshot, scope: Name): State {
    var noted := s0.editNoted;
    var s := s0.(latest := snapshot, editNoted := false);
    if s.scope != Some(scope) then
      CancelTimer(s).(pending := None, stacks := map[], baseline := map[job := snapshot], suppress := false,
                      scope := Some(scope), job := job)
    else if s.job != job then
      var f := Flush(s);
      f.(job := job, baseline := f.baseline[job := snapshot], stacks := f.stacks[job := StackFor(f, job)])
    else
      var c := CancelTimer(s).(pending := None);
      if s.suppress then c.(suppress := false, baseline := s.baseline[job := snapshot])
      else if job !in s.baseline then c.(baseline := s.baseline[job := snapshot])
      else
        var isNoted := noted || (s.pending.Some? && s.pending.value.noted);
        if !isNoted && s.baseline[job].key == snapshot.key then c
        else
          c.(pending := Some(Pending(job, s.baseline[job], snapshot, isNoted, s.nextTimer)),
             armed := c.armed + {s.nextTimer},
             nextTimer := s.nextTimer + 1)
  }

  function NoteEdit(s: State): State {
    s.(editNoted := true)
  }

  /** A timer that was cancelled does not fire. */
  function TimerFires(s: State, timer: nat): State {
    if timer in s.armed then Commit(s.(armed := s.armed - {timer})) else s
  }

  /** Undo with nothing pending. */
  function Back(s: State): (State, Option<Snapshot>) {
    var st := StackFor(s, s.job);
    if st.past == [] then (s.(stacks := s.stacks[s.job := st]), None)
    else
      var restore := st.past[|st.past| - 1];
      (s.(stacks := s.stacks[s.job := Stack(st.past[..|st.past| - 1], st.future + [s.latest])],
          suppress := true,
          baseline := s.baseline[s.job := restore]), Some(restore))
  }

  /** Redo with nothing pending. */
  function Forward(s: State): (State, Option<Snapshot>) {
    var st := StackFor(s, s.job);
    if st.future == [] then (s.(stacks := s.stacks[s.job := st]), None)
    else
      var restore := st.future[|st.future| - 1];
      (s.(stacks := s.stacks[s.job := Stack(st.past + [s.latest], st.future[..|st.future| - 1])],
          suppress := true,
          baseline := s.baseline[s.job := restore]), Some(restore))
  }

  function Undo(s: State): (State, Option<Snapshot>) {
    Back(Flush(s))
  }

  function Redo(s: State): (State, Option<Snapshot>) {
    Forward(Flush(s))
  }

  predicate CanUndo(s: State) {
    (s.pending.Some? && s.pending.value.job == s.job) || StackFor(s, s.job).past != []
  }

  predicate CanRedo(s: State) {
    StackFor(s, s.job).future != []
  }

  function Dispose(s: State): State {
    CancelTimer(s).(pending := None)
  }

  // Runs. -----------------------------------------------------------------------

  datatype Event =
    | Observed(job: Name, snapshot: Snapshot, scope: Name)
    | EditNoted
    | TimerFired(timer: nat)
    | UndoPressed
    | RedoPressed
    | Disposed

  function Step(s: State, e: Event): State {
    match e
    case Observed(job, snapshot, scope) => Observe(s, job, snapshot, scope)
    case EditNoted => NoteEdit(s)
    case TimerFired(timer) => TimerFires(s, timer)
    case UndoPressed => Undo(s).0
    case RedoPressed => Redo(s).0
    case Disposed => Dispose(s)
  }

  function Run(s: State, events: seq<Event>): State {
    if events == [] then s else Step(Run(s, events[..|events| - 1]), events[|events| - 1])
  }

  /** What holds between any two events, whatever the environment does. */
  ghost predicate Consistent(s: State) {
    && (s.scope.Some? ==> s.job in s.baseline)
    && (s.scope.None? ==> s.pending.None? && !s.suppress && forall j :: j in s.stacks ==> s.stacks[j] == Stack([], []))
    && (s.pending.Some? ==>
          var p := s.pending.value;
          && p.job == s.job && s.job in s.baseline
          && p.prev == s.baseline[s.job] && p.settled == s.latest
          && !s.suppress
          && s.armed == {p.timer})
    && (s.pending.None? ==> s.armed == {})
    && Bounded(s)
  }

  ghost predicate Bounded(s: State) {
    forall j :: j in s.stacks ==> |s.stacks[j].past| + |s.stacks[j].future| <= HISTORY_LIMIT
  }

  lemma FlushConsistent(s: State)
    requires Consistent(s)
    ensures Consistent(Flush(s)) && Flush(s).pending.None?
  {
  }

  lemma ObserveConsistent(s: State, job: Name, snapshot: Snapshot, scope: Name)
    requires Consistent(s)
    ensures Consistent(Observe(s, job, snapshot, scope))
  {
    if s.scope == Some(scope) && s.job != job {
      FlushConsistent(s);
    }
  }

  lemma BackConsistent(s: State)
    requires Consistent(s) && s.pending.None?
    ensures Consistent(Back(s).0)
  {
  }

  lemma ForwardConsistent(s: State)
    requires Consistent(s) && s.pending.None?
    ensures Consistent(Forward(s).0)
  {
  }

  lemma StepConsistent(s: State, e: Event)
    requires Consistent(s)
    ensures Consistent(Step(s, e))
  {
    match e
    case Observed(job, snapshot, scope) => ObserveConsistent(s, job, snapshot, scope);
    case UndoPressed =>
      FlushConsistent(s);
      BackConsistent(Flush(s));
    case RedoPressed =>
      FlushConsistent(s);
      ForwardConsistent(Flush(s));
    case _ =>
  }

  /** In every reachable state: one pending edit at most, of the current
      pipeline, based on its baseline and settled at what is on the canvas,
      with the one armed timer; and never more than fifty entries per pipeline. */
  lemma {:induction false} RunConsistent(job: Name, initial: Snapshot, events: seq<Event>)
    ensures var s := Run(Initial(job, initial), events);
            Consistent(s) && forall j :: |StackFor(s, j).past| + |StackFor(s, j).future| <= 50
  {
    if events != [] {
      RunConsistent(job, initial, events[..|events| - 1]);
      StepConsistent(Run(Initial(job, initial), events[..|events| - 1]), events[|events| - 1]);
    }
  }

  // What each step does to the pipeline on the canvas. -------------------------------

  /** Nothing pending and no restore waiting to be applied. */
  ghost predicate Settled(s: State) {
    s.scope.Some? && s.job in s.baseline && s.pending.None? && !s.suppress
  }

  lemma FlushRecords(s: State)
    requires Consistent(s) && s.pending.Some?
    ensures var f, p := Flush(s), s.pending.value;
            && StackFor(f, s.job) == Stack(Trim(StackFor(s, s.job).past + [p.prev]), [])
            && f.baseline == s.baseline[s.job := s.latest]
            && f == s.(stacks := f.stacks, baseline := f.baseline, pending := None, armed := {})
  {
  }

  lemma BackMoves(s: State)
    requires Settled(s) && StackFor(s, s.job).past != []
    ensures var st, (b, restored) := StackFor(s, s.job), Back(s);
            && restored == Some(st.past[|st.past| - 1])
            && StackFor(b, s.job) == Stack(st.past[..|st.past| - 1], st.future + [s.latest])
            && b == s.(stacks := b.stacks, suppress := true, baseline := s.baseline[s.job := restored.value])
  {
  }

  lemma ForwardMoves(s: State)
    requires Settled(s) && StackFor(s, s.job).future != []
    ensures var st, (b, restored) := StackFor(s, s.job), Forward(s);
            && restored == Some(st.future[|st.future| - 1])
            && StackFor(b, s.job) == Stack(st.past + [s.latest], st.future[..|st.future| - 1])
            && b == s.(stacks := b.stacks, suppress := true, baseline := s.baseline[s.job := restored.value])
  {
  }

  /** Observing a restored snapshot applies it and changes no stack. */
  lemma ApplyRestored(s: State, restored: Snapshot)
    requires s.scope.Some? && s.pending.None? && s.suppress
    ensures Observe(s, s.job, restored, s.scope.value)
            == s.(latest := restored, editNoted := false, suppress := false, baseline := s.baseline[s.job := restored])
  {
  }
}
