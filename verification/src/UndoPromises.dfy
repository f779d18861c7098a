/** What follows for the user of one pipeline. */
module UndoPromises {
  import opened Graph
  import opened UndoModel
  import opened UndoTimeline
  import opened UndoTheorems

  /** Opening a workspace leaves the history at rest, with one entry. */
  lemma OpenedAtRest(s: State, job: Name, snapshot: Snapshot, scope: Name)
    requires Consistent(s) && s.scope != Some(scope)
    ensures var o := Observe(s, job, snapshot, scope);
            AtRest(o) && TimelineOf(o) == Timeline([snapshot.key], 0, None)
  {
    ObserveConsistent(s, job, snapshot, scope);
    assert Keys([]) == [] && ReversedKeys([]) == [];
  }

  // Undo and redo only move the cursor. ----------------------------------------------

  /** Undos, redos, and observations that change nothing a user edits. */
  ghost predicate OnlyMoves(t: Timeline, actions: seq<Action>)
    requires t.cursor < |t.entries|
  {
    actions != [] ==>
      var before := IdealAll(t, actions[..|actions| - 1]);
      && OnlyMoves(t, actions[..|actions| - 1])
      && match actions[|actions| - 1]
         case UndoApplied => true
         case RedoApplied => true
         case Pause => true
         case Edit(snapshot, noted) => !noted && snapshot.key == before.entries[before.cursor]
  }

  lemma {:induction false} MovesConserve(t: Timeline, actions: seq<Action>)
    requires t.cursor < |t.entries| && t.draft.None? && OnlyMoves(t, actions)
    ensures var r := IdealAll(t, actions); r.entries == t.entries && r.draft.None?
  {
    if actions != [] {
      MovesConserve(t, actions[..|actions| - 1]);
    }
  }

  /** Conservation: with nothing pending, no sequence of undos, redos and
      unremarkable observations changes the timeline but for its cursor. */
  lemma TimelineConserved(s: State, actions: seq<Action>)
    requires AtRest(s) && s.pending.None? && OnlyMoves(TimelineOf(s), actions)
    ensures var s' := PerformAll(s, actions);
            && s'.pending.None?
            && TimelineOf(s').entries == TimelineOf(s).entries
            && s'.latest.key == TimelineOf(s).entries[TimelineOf(s').cursor]
  {
    HistoryRefinesTimeline(s, actions);
    MovesConserve(TimelineOf(s), actions);
    var s' := PerformAll(s, actions);
    assert TimelineOf(s').entries[TimelineOf(s').cursor] == s'.baseline[s'.job].key;
  }

  function Times(a: Action, k: nat): (r: seq<Action>)
    ensures |r| == k
  {
    seq(k, i => a)
  }

  lemma {:induction false} UndoTimes(t: Timeline, k: nat)
    requires t.cursor < |t.entries| && t.draft.None? && k <= t.cursor
    ensures IdealAll(t, Times(UndoApplied, k)) == t.(cursor := t.cursor - k)
  {
    if k > 0 {
      UndoTimes(t, k - 1);
      assert Times(UndoApplied, k)[..k - 1] == Times(UndoApplied, k - 1);
    }
  }

  lemma OneTimeLess(actions: seq<Action>, a: Action, k: nat)
    requires k > 0
    ensures var all := actions + Times(a, k);
            all[..|all| - 1] == actions + Times(a, k - 1) && all[|all| - 1] == a
  {
  }

  lemma {:induction false} RedoTimes(t: Timeline, actions: seq<Action>, k: nat)
    requires t.cursor < |t.entries|
    requires var u := IdealAll(t, actions); u.draft.None? && u.cursor + k < |u.entries|
    ensures var u := IdealAll(t, actions);
            IdealAll(t, actions + Times(RedoApplied, k)) == u.(cursor := u.cursor + k)
  {
    var all := actions + Times(RedoApplied, k);
    if k == 0 {
      assert all == actions;
    } else {
      RedoTimes(t, actions, k - 1);
      OneTimeLess(actions, RedoApplied, k);
    }
  }

  /** k undos and then k redos lead back to where they started. */
  lemma RedosRevertUndos(s: State, k: nat)
    requires AtRest(s) && s.pending.None? && k <= |StackFor(s, s.job).past|
    ensures var u := PerformAll(s, Times(UndoApplied, k));
            var r := PerformAll(s, Times(UndoApplied, k) + Times(RedoApplied, k));
            && u.latest.key == TimelineOf(s).entries[|StackFor(s, s.job).past| - k]
            && TimelineOf(r) == TimelineOf(s)
            && r.latest.key == s.latest.key
  {
    var t := TimelineOf(s);
    var undos := Times(UndoApplied, k);
    UndoTimes(t, k);
    RedoTimes(t, undos, k);
    HistoryRefinesTimeline(s, undos);
    HistoryRefinesTimeline(s, undos + Times(RedoApplied, k));
    ShowsCursor(s);
    ShowsCursor(PerformAll(s, undos));
    ShowsCursor(PerformAll(s, undos + Times(RedoApplied, k)));
  }

  lemma ShowsCursor(s: State)
    requires AtRest(s)
    ensures TimelineOf(s).draft.None? ==> TimelineOf(s).entries[TimelineOf(s).cursor] == s.latest.key
  {
  }

  // No press is wasted. ----------------------------------------------------------------

  ghost predicate NeighboursDiffer(t: Timeline)
    requires t.cursor < |t.entries|
  {
    && (forall i {:trigger t.entries[i]} :: 0 <= i < |t.entries| - 1 ==> t.entries[i] != t.entries[i + 1])
    && (t.draft.Some? ==> !t.draft.value.noted && t.draft.value.key != t.entries[t.cursor])
  }

  ghost predicate NothingNoted(actions: seq<Action>) {
    forall a :: a in actions ==> a.Edit? ==> !a.noted
  }

  lemma RecordKeepsDifferent(t: Timeline)
    requires t.cursor < |t.entries| && NeighboursDiffer(t)
    ensures NeighboursDiffer(Record(t))
  {
    if t.draft.Some? {
      var entries := t.entries[..t.cursor + 1] + [t.draft.value.key];
      forall i | 0 <= i < |entries| - 1
        ensures entries[i] != entries[i + 1]
      {
        assert entries[i] == t.entries[i];
        assert i < t.cursor ==> entries[i + 1] == t.entries[i + 1];
      }
      if |entries| > HISTORY_LIMIT + 1 {
        forall i | 0 <= i < |entries| - 2
          ensures entries[1..][i] != entries[1..][i + 1]
        {
          assert entries[1..][i] == entries[i + 1];
        }
      }
    }
  }

  lemma {:induction false} NeighboursStayDifferent(t: Timeline, actions: seq<Action>)
    requires t.cursor < |t.entries| && NeighboursDiffer(t) && NothingNoted(actions)
    ensures NeighboursDiffer(IdealAll(t, actions))
  {
    if actions != [] {
      var front, last := actions[..|actions| - 1], actions[|actions| - 1];
      NeighboursStayDifferent(t, front);
      assert last in actions;
      RecordKeepsDifferent(IdealAll(t, front));
    }
  }

  /** In a pipeline where no edit is recorded on request, every undo and every
      redo that restores something changes what the user sees. */
  lemma NoPressIsWasted(s: State, job: Name, snapshot: Snapshot, scope: Name, actions: seq<Action>)
    requires Consistent(s) && s.scope != Some(scope) && NothingNoted(actions)
    ensures var o := Observe(s, job, snapshot, scope);
            AtRest(o) && var r := PerformAll(o, actions);
            && (Undo(r).1.Some? ==> Undo(r).1.value.key != r.latest.key)
            && (Redo(r).1.Some? ==> Redo(r).1.value.key != r.latest.key)
  {
    OpenedAtRest(s, job, snapshot, scope);
    var o := Observe(s, job, snapshot, scope);
    var r := PerformAll(o, actions);
    HistoryRefinesTimeline(o, actions);
    NeighboursStayDifferent(TimelineOf(o), actions);
    RecordKeepsDifferent(TimelineOf(r));
    RecordRefines(r);
    PressLooksBeside(Flush(r));
  }

  /** With nothing pending, undo and redo restore the entries beside the cursor. */
  lemma PressLooksBeside(s: State)
    requires AtRest(s) && Settled(s)
    ensures var t := TimelineOf(s);
            && t.entries[t.cursor] == s.latest.key
            && (Back(s).1.Some? ==> t.cursor > 0 && Back(s).1.value.key == t.entries[t.cursor - 1])
            && (Forward(s).1.Some? ==> t.cursor + 1 < |t.entries| && Forward(s).1.value.key == t.entries[t.cursor + 1])
  {
  }

  // A burst of edits is one step. -------------------------------------------------------

  function AnyNoted(edits: seq<Action>): bool {
    edits != [] && (AnyNoted(edits[..|edits| - 1]) || (edits[|edits| - 1].Edit? && edits[|edits| - 1].noted))
  }

  function CarriedNote(s: State): bool {
    s.pending.Some? && s.pending.value.noted
  }

  /** s after edits that end at `last`, the timers numbered below `next`. */
  function AfterBurst(s: State, last: Snapshot, noted: bool, next: nat): State
    requires s.job in s.baseline
  {
    if (noted || s.baseline[s.job].key != last.key) && next > 0 then
      s.(latest := last, nextTimer := next, armed := {next - 1},
         pending := Some(Pending(s.job, s.baseline[s.job], last, noted, next - 1)))
    else
      s.(latest := last, nextTimer := next, armed := {}, pending := None)
  }

  lemma FirstEdit(s: State, snapshot: Snapshot, noted: bool)
    requires AtRest(s)
    ensures var r := Perform(s, Edit(snapshot, noted));
            r == AfterBurst(s, snapshot, noted || CarriedNote(s), r.nextTimer)
  {
  }

  lemma NextEdit(s: State, last: Snapshot, before: bool, next: nat, snapshot: Snapshot, noted: bool)
    requires AtRest(s) && ((before || s.baseline[s.job].key != last.key) ==> next > 0)
    ensures var r := Perform(AfterBurst(s, last, before, next), Edit(snapshot, noted));
            r == AfterBurst(s, snapshot, noted || before, r.nextTimer)
            && ((noted || before || s.baseline[s.job].key != snapshot.key) ==> r.nextTimer > 0)
  {
  }

  lemma {:induction false} BurstState(s: State, edits: seq<Action>)
    requires AtRest(s) && edits != [] && forall a :: a in edits ==> a.Edit?
    ensures var r := PerformAll(s, edits);
            var last := edits[|edits| - 1].snapshot;
            var noted := AnyNoted(edits) || CarriedNote(s);
            && r == AfterBurst(s, last, noted, r.nextTimer)
            && ((noted || s.baseline[s.job].key != last.key) ==> r.nextTimer > 0)
  {
    var front, e := edits[..|edits| - 1], edits[|edits| - 1];
    assert e in edits;
    if front == [] {
      assert PerformAll(s, front) == s;
      FirstEdit(s, e.snapshot, e.noted);
    } else {
      BurstState(s, front);
      var m := PerformAll(s, front);
      NextEdit(s, front[|front| - 1].snapshot, AnyNoted(front) || CarriedNote(s), m.nextTimer, e.snapshot, e.noted);
    }
  }

  lemma PauseAfterBurst(s: State, last: Snapshot, noted: bool, next: nat, next': nat)
    requires AtRest(s) && ((noted || s.baseline[s.job].key != last.key) ==> next > 0 && next' > 0)
    ensures Perform(AfterBurst(s, last, noted, next), Pause).(nextTimer := 0)
            == Perform(AfterBurst(s, last, noted, next'), Pause).(nextTimer := 0)
    ensures !noted && s.baseline[s.job].key == last.key ==>
              Perform(AfterBurst(s, last, noted, next), Pause).stacks == s.stacks
              && Perform(AfterBurst(s, last, noted, next), Pause).baseline == s.baseline
  {
  }

  /** Debounce: a burst of observations, however long, is recorded as one edit to
      its last snapshot, noted if any of them was; and a burst that ends where it
      started, with nothing noted, is not recorded at all. */
  lemma BurstIsOneEdit(s: State, edits: seq<Action>)
    requires AtRest(s) && edits != [] && forall a :: a in edits ==> a.Edit?
    ensures var last := edits[|edits| - 1].snapshot;
            var burst := Perform(PerformAll(s, edits), Pause);
            && burst.(nextTimer := 0) == Perform(Perform(s, Edit(last, AnyNoted(edits))), Pause).(nextTimer := 0)
            && (!AnyNoted(edits) && !CarriedNote(s) && last.key == s.baseline[s.job].key ==>
                  burst.stacks == s.stacks && burst.baseline == s.baseline)
  {
    var last := edits[|edits| - 1].snapshot;
    var noted := AnyNoted(edits);
    BurstState(s, edits);
    BurstState(s, [Edit(last, noted)]);
    FirstEdit(s, last, noted);
    assert AnyNoted([Edit(last, noted)]) == noted;
    assert PerformAll(s, [Edit(last, noted)]) == Perform(PerformAll(s, []), Edit(last, noted));
    PauseAfterBurst(s, last, noted || CarriedNote(s), PerformAll(s, edits).nextTimer, Perform(s, Edit(last, noted)).nextTimer);
  }

  // Why restores have to be applied. ------------------------------------------------------

  /** A step back before the last one is applied puts the canvas behind the step. */
  lemma BackTwice(s: State)
    requires AtRest(s) && Settled(s) && |StackFor(s, s.job).past| >= 2
    ensures var n := |StackFor(s, s.job).past|;
            var (s2, second) := Back(Back(s).0);
            && second.Some?
            && var r := Observe(s2, s.job, second.value, s.scope.value);
               AtRest(r) && TimelineOf(r) == Timeline(TimelineOf(s).entries[n - 1 := s.latest.key], n - 2, None)
  {
    var st, t := StackFor(s, s.job), TimelineOf(s);
    var n := |st.past|;
    BackMoves(s);
    BackConsistent(s);
    var s1 := Back(s).0;
    BackConsistent(s1);
    var (s2, second) := Back(s1);
    assert StackFor(s2, s.job) == Stack(st.past[..n - 2], st.future + [s.latest] + [s.latest]);
    ApplyRestored(s2, second.value);
    ObserveConsistent(s2, s.job, second.value, s.scope.value);
    ReversedTwice(st.future, s.latest);
    assert Keys(st.past) == Keys(st.past[..n - 2]) + [st.past[n - 2].key, st.past[n - 1].key];
    assert t.entries[n - 1 := s.latest.key]
        == Keys(st.past[..n - 2]) + [second.value.key] + ([s.latest.key, s.latest.key] + ReversedKeys(st.future));
  }

  lemma ReversedTwice(xs: seq<Snapshot>, x: Snapshot)
    ensures ReversedKeys(xs + [x] + [x]) == [x.key, x.key] + ReversedKeys(xs)
  {
  }

  /** Two undos, the second before the first is applied, with two entries or more
      behind the cursor: the entry before it is overwritten with the one on the canvas. */
  lemma TwoUndosUnapplied(s: State)
    requires AtRest(s)
    ensures var t := TimelineOf(Flush(s));
            var (s2, second) := Undo(Undo(s).0);
            && (second.Some? <==> t.cursor >= 2)
            && (second.Some? ==>
                  var r := Observe(s2, s.job, second.value, s.scope.value);
                  AtRest(r) && TimelineOf(r) == Timeline(t.entries[t.cursor - 1 := s.latest.key], t.cursor - 2, None))
  {
    RecordRefines(s);
    var f := Flush(s);
    UndoOfFlushed(f);
    UndoOfFlushed(Undo(s).0);
    if |StackFor(f, s.job).past| >= 2 {
      BackTwice(f);
    } else {
      BackTwiceOfFew(f);
    }
  }

  lemma UndoOfFlushed(s: State)
    requires s.pending.None?
    ensures Undo(s) == Back(s)
    ensures Undo(s).0.pending.None?
  {
  }

  /** With one entry or none behind the cursor, the second undo does nothing. */
  lemma TwoUndosOfFew(s: State)
    requires AtRest(s) && TimelineOf(Flush(s)).cursor <= 1
    ensures Undo(Undo(s).0) == (Undo(s).0, None)
  {
    RecordRefines(s);
    var f := Flush(s);
    UndoOfFlushed(f);
    UndoOfFlushed(Undo(s).0);
    BackTwiceOfFew(f);
  }

  lemma FlushedAgain(s: State)
    requires s.pending.None?
    ensures Flush(s) == s
  {
  }

  lemma BackTwiceOfFew(s: State)
    requires s.pending.None? && |StackFor(s, s.job).past| <= 1
    ensures Back(Back(s).0) == (Back(s).0, None)
  {
    var s1 := Back(s).0;
    assert StackFor(s1, s.job).past == [] && s1.job == s.job;
    assert s1.stacks[s.job := s1.stacks[s.job]] == s1.stacks;
  }

  /** Two undos that both restore keep the timeline, if the second comes before the
      first is applied, exactly when the first would not have changed the key. */
  lemma TwoUndosKeepIff(s: State)
    requires AtRest(s) && Undo(Undo(s).0).1.Some?
    ensures var (s2, second) := Undo(Undo(s).0);
            TimelineOf(Observe(s2, s.job, second.value, s.scope.value)).entries == TimelineOf(Flush(s)).entries
            <==> Undo(s).1.value.key == s.latest.key
  {
    TwoUndosUnapplied(s);
    RecordRefines(s);
    PressLooksBeside(Flush(s));
    var t := TimelineOf(Flush(s));
    assert t.entries[t.cursor - 1 := s.latest.key][t.cursor - 1] == s.latest.key;
  }

  /** So in a pipeline where no edit is recorded on request, two such undos always
      lose the step in between. */
  lemma UnappliedUndosLose(s: State, job: Name, snapshot: Snapshot, scope: Name, actions: seq<Action>)
    requires Consistent(s) && s.scope != Some(scope) && NothingNoted(actions)
    ensures var o := Observe(s, job, snapshot, scope);
            AtRest(o) && var r := PerformAll(o, actions);
            var (r2, second) := Undo(Undo(r).0);
            second.Some? ==>
              TimelineOf(Observe(r2, r.job, second.value, r.scope.value)).entries != TimelineOf(Flush(r)).entries
  {
    NoPressIsWasted(s, job, snapshot, scope, actions);
    var r := PerformAll(Observe(s, job, snapshot, scope), actions);
    TwoUndosUnapplied(r);
    if Undo(Undo(r).0).1.Some? {
      TwoUndosKeepIff(r);
    }
  }

  // A run in which a step is lost. -----------------------------------------------------------

  /** Open with a, edit to b, pause, edit to c, pause. */
  function TwoEdits(j: Name, w: Name, a: Snapshot, b: Snapshot, c: Snapshot): seq<Event> {
    [Observed(j, a, w), Observed(j, b, w), TimerFired(0), Observed(j, c, w), TimerFired(1)]
  }

  lemma TwoEditsMade(j: Name, w: Name, a: Snapshot, b: Snapshot, c: Snapshot)
    requires a.key != b.key && b.key != c.key
    ensures var s := Run(Initial(j, a), TwoEdits(j, w, a, b, c));
            AtRest(s) && s.pending.None? && s.job == j && s.scope == Some(w) && s.latest == c
            && StackFor(s, j) == Stack([a, b], [])
  {
    var s0 := Initial(j, a);
    RunFive(s0, Observed(j, a, w), Observed(j, b, w), TimerFired(0), Observed(j, c, w), TimerFired(1));
    RunConsistent(j, a, TwoEdits(j, w, a, b, c));
    var s2 := Observe(Observe(s0, j, a, w), j, b, w);
    assert s2.pending == Some(Pending(j, a, b, false, 0));
    var s3 := TimerFires(s2, 0);
    assert StackFor(s3, j) == Stack([a], []) && s3.baseline[j] == b;
    var s4 := Observe(s3, j, c, w);
    assert s4.pending == Some(Pending(j, b, c, false, 1));
    assert [a] + [b] == [a, b];
  }

  /** From a, b, c with c on the canvas, two undos before the first is applied leave
      a, c, c: nothing leads back to b. */
  lemma SecondUndoLosesAStep(j: Name, w: Name, a: Snapshot, b: Snapshot, c: Snapshot)
    requires a.key != b.key && b.key != c.key
    ensures var s := Run(Initial(j, a), TwoEdits(j, w, a, b, c));
            AtRest(s) && TimelineOf(s).entries == [a.key, b.key, c.key]
            && var r := Run(Initial(j, a), TwoEdits(j, w, a, b, c) + [UndoPressed] + [UndoPressed] + [Observed(j, a, w)]);
               AtRest(r) && TimelineOf(r) == Timeline([a.key, c.key, c.key], 0, None)
               && b.key !in TimelineOf(r).entries
  {
    var events := TwoEdits(j, w, a, b, c);
    var s := Run(Initial(j, a), events);
    TwoEditsMade(j, w, a, b, c);
    ThreeMore(Initial(j, a), events, UndoPressed, UndoPressed, Observed(j, a, w));
    LostBetween(s, a, b, c);
  }

  lemma ThreeMore(s: State, events: seq<Event>, e1: Event, e2: Event, e3: Event)
    ensures Run(s, events + [e1] + [e2] + [e3]) == Step(Step(Step(Run(s, events), e1), e2), e3)
  {
    RunConcat(s, events, e1);
    RunConcat(s, events + [e1], e2);
    RunConcat(s, events + [e1] + [e2], e3);
  }

  lemma LostBetween(s: State, a: Snapshot, b: Snapshot, c: Snapshot)
    requires AtRest(s) && s.pending.None? && StackFor(s, s.job) == Stack([a, b], []) && s.latest == c
    ensures TimelineOf(s).entries == [a.key, b.key, c.key]
    ensures var r := Observe(Undo(Undo(s).0).0, s.job, a, s.scope.value);
            AtRest(r) && TimelineOf(r) == Timeline([a.key, c.key, c.key], 0, None)
  {
    FlushedAgain(s);
    TwoUndosUnapplied(s);
    BackMoves(s);
    assert [a, b][..1] == [a];
    assert Undo(Undo(s).0).1 == Some(a);
  }
}
