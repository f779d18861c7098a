/** The undo history of one pipeline is a timeline with a cursor: the canvas
    object refines this simple model, which knows neither stacks, nor timers,
    nor the flag that suppresses its own restores. */
module UndoTimeline {
  import opened Graph
  import opened UndoModel

  datatype Draft = Draft(key: Key, noted: bool)

  /** The recorded states by key, the one on the canvas, and an edit in its debounce. */
  datatype Timeline = Timeline(entries: seq<Key>, cursor: nat, draft: Option<Draft>)

  /** What the user does to one pipeline. `Undo` and `Redo` include applying what
      they restore: the next thing observed is the restored snapshot. */
  datatype Action =
    | Edit(snapshot: Snapshot, noted: bool)
    | Pause
    | UndoApplied
    | RedoApplied

  // The simple model. ----------------------------------------------------------------

  /** The draft becomes the newest entry and what was undone is dropped; at most
      fifty entries stay before it. */
  function Record(t: Timeline): Timeline
    requires t.cursor < |t.entries|
  {
    match t.draft
    case None => t
    case Some(d) =>
      var entries := t.entries[..t.cursor + 1] + [d.key];
      var kept := if |entries| > HISTORY_LIMIT + 1 then entries[1..] else entries;
      Timeline(kept, |kept| - 1, None)
  }

  function Ideal(t: Timeline, a: Action): (r: Timeline)
    requires t.cursor < |t.entries|
    ensures r.cursor < |r.entries|
  {
    match a
    case Edit(snapshot, noted) =>
      var noted' := noted || (t.draft.Some? && t.draft.value.noted);
      if noted' || snapshot.key != t.entries[t.cursor] then t.(draft := Some(Draft(snapshot.key, noted')))
      else t.(draft := None)
    case Pause => Record(t)
    case UndoApplied => var r := Record(t); if r.cursor > 0 then r.(cursor := r.cursor - 1) else r
    case RedoApplied => var r := Record(t); if r.cursor + 1 < |r.entries| then r.(cursor := r.cursor + 1) else r
  }

  function IdealAll(t: Timeline, actions: seq<Action>): (r: Timeline)
    requires t.cursor < |t.entries|
    ensures r.cursor < |r.entries|
  {
    if actions == [] then t else Ideal(IdealAll(t, actions[..|actions| - 1]), actions[|actions| - 1])
  }

  // The same actions on the history. ---------------------------------------------------

  function Apply(s: State, pressed: (State, Option<Snapshot>)): State
    requires s.scope.Some?
  {
    match pressed.1
    case None => pressed.0
    case Some(restored) => Observe(pressed.0, s.job, restored, s.scope.value)
  }

  function Perform(s: State, a: Action): State
    requires s.scope.Some?
  {
    match a
    case Edit(snapshot, noted) => Observe(if noted then NoteEdit(s) else s, s.job, snapshot, s.scope.value)
    case Pause => if s.pending.Some? then TimerFires(s, s.pending.value.timer) else s
    case UndoApplied => Apply(s, Undo(s))
    case RedoApplied => Apply(s, Redo(s))
  }

  function Keys(xs: seq<Snapshot>): seq<Key> {
    seq(|xs|, i requires 0 <= i < |xs| => xs[i].key)
  }

  function ReversedKeys(xs: seq<Snapshot>): seq<Key> {
    seq(|xs|, i requires 0 <= i < |xs| => xs[|xs| - 1 - i].key)
  }

  /** past ++ [baseline] ++ reverse(future), by key, with the cursor at the baseline. */
  function TimelineOf(s: State): Timeline
    requires s.job in s.baseline
  {
    var st := StackFor(s, s.job);
    Timeline(Keys(st.past) + [s.baseline[s.job].key] + ReversedKeys(st.future), |st.past|,
             if s.pending.Some? then Some(Draft(s.pending.value.settled.key, s.pending.value.noted)) else None)
  }

  /** Between two actions: nothing is half applied, and without a draft the
      canvas shows the entry under the cursor. */
  ghost predicate AtRest(s: State) {
    && Consistent(s) && s.scope.Some? && !s.suppress && !s.editNoted
    && (s.pending.None? ==> s.latest.key == s.baseline[s.job].key)
  }

  lemma RecordRefines(s: State)
    requires AtRest(s)
    ensures AtRest(Flush(s)) && Settled(Flush(s)) && Flush(s).job == s.job && Flush(s).scope == s.scope
    ensures TimelineOf(Flush(s)) == Record(TimelineOf(s))
  {
    FlushConsistent(s);
    if s.pending.Some? {
      FlushRecords(s);
      var past := StackFor(s, s.job).past;
      var p := s.pending.value;
      var t := TimelineOf(s);
      assert t.entries[..t.cursor + 1] == Keys(past) + [p.prev.key];
      assert Keys(past + [p.prev]) == Keys(past) + [p.prev.key];
      assert ReversedKeys([]) == [];
      assert Keys(Trim(past + [p.prev])) == if |past| + 1 > HISTORY_LIMIT then Keys(past + [p.prev])[1..] else Keys(past + [p.prev]);
    }
  }

  lemma PauseIsFlush(s: State)
    requires Consistent(s)
    ensures s.pending.Some? ==> TimerFires(s, s.pending.value.timer) == Flush(s)
    ensures s.pending.None? ==> Flush(s) == s
  {
  }

  lemma EditRefines(s: State, snapshot: Snapshot, noted: bool)
    requires AtRest(s)
    ensures var s' := Perform(s, Edit(snapshot, noted));
            AtRest(s') && s'.job == s.job && s'.scope == s.scope
            && TimelineOf(s') == Ideal(TimelineOf(s), Edit(snapshot, noted))
  {
    ObserveConsistent(if noted then NoteEdit(s) else s, s.job, snapshot, s.scope.value);
    var t := TimelineOf(s);
    assert t.entries[t.cursor] == s.baseline[s.job].key;
  }

  lemma UndoRefines(s: State)
    requires AtRest(s) && Settled(s)
    ensures var s' := Apply(s, Back(s));
            var t := TimelineOf(s);
            && AtRest(s') && s'.job == s.job && s'.scope == s.scope
            && TimelineOf(s') == if t.cursor > 0 then t.(cursor := t.cursor - 1) else t
  {
    var st := StackFor(s, s.job);
    BackConsistent(s);
    if st.past != [] {
      BackMoves(s);
      var (b, restored) := Back(s);
      ApplyRestored(b, restored.value);
      ObserveConsistent(b, s.job, restored.value, s.scope.value);
      var last := |st.past| - 1;
      assert ReversedKeys(st.future + [s.latest]) == [s.latest.key] + ReversedKeys(st.future);
      assert Keys(st.past) == Keys(st.past[..last]) + [st.past[last].key];
    }
  }

  lemma RedoRefines(s: State)
    requires AtRest(s) && Settled(s)
    ensures var s' := Apply(s, Forward(s));
            var t := TimelineOf(s);
            && AtRest(s') && s'.job == s.job && s'.scope == s.scope
            && TimelineOf(s') == if t.cursor + 1 < |t.entries| then t.(cursor := t.cursor + 1) else t
  {
    var st := StackFor(s, s.job);
    ForwardConsistent(s);
    if st.future != [] {
      ForwardMoves(s);
      var (b, restored) := Forward(s);
      ApplyRestored(b, restored.value);
      ObserveConsistent(b, s.job, restored.value, s.scope.value);
      var last := |st.future| - 1;
      assert ReversedKeys(st.future) == [st.future[last].key] + ReversedKeys(st.future[..last]);
      assert Keys(st.past + [s.latest]) == Keys(st.past) + [s.latest.key];
    }
  }

  lemma PerformRefines(s: State, a: Action)
    requires AtRest(s)
    ensures var s' := Perform(s, a);
            AtRest(s') && s'.job == s.job && s'.scope == s.scope && TimelineOf(s') == Ideal(TimelineOf(s), a)
  {
    match a
    case Edit(snapshot, noted) => EditRefines(s, snapshot, noted);
    case Pause =>
      PauseIsFlush(s);
      RecordRefines(s);
    case UndoApplied =>
      RecordRefines(s);
      UndoRefines(Flush(s));
    case RedoApplied =>
      RecordRefines(s);
      RedoRefines(Flush(s));
  }

  function PerformAll(s: State, actions: seq<Action>): (r: State)
    requires AtRest(s)
    ensures AtRest(r) && r.job == s.job && r.scope == s.scope
  {
    if actions == [] then s
    else
      var before := PerformAll(s, actions[..|actions| - 1]);
      PerformRefines(before, actions[|actions| - 1]);
      Perform(before, actions[|actions| - 1])
  }

  /** Refinement: after any actions on a pipeline, the history shows the timeline
      that the simple model shows. */
  lemma {:induction false} HistoryRefinesTimeline(s: State, actions: seq<Action>)
    requires AtRest(s)
    ensures TimelineOf(PerformAll(s, actions)) == IdealAll(TimelineOf(s), actions)
  {
    if actions != [] {
      HistoryRefinesTimeline(s, actions[..|actions| - 1]);
      PerformRefines(PerformAll(s, actions[..|actions| - 1]), actions[|actions| - 1]);
    }
  }

  lemma RunConcat(s: State, first: seq<Event>, e: Event)
    ensures Run(s, first + [e]) == Step(Run(s, first), e)
    ensures Run(s, []) == s
  {
    assert (first + [e])[..|first|] == first;
  }

  /** Every action is a short run of the events the history really receives. */
  lemma ActionIsRun(s: State, a: Action) returns (events: seq<Event>)
    requires s.scope.Some?
    ensures Run(s, events) == Perform(s, a)
  {
    var scope := s.scope.value;
    match a {
      case Edit(snapshot, noted) =>
        events := (if noted then [EditNoted] else []) + [Observed(s.job, snapshot, scope)];
        RunConcat(s, [], EditNoted);
        RunConcat(s, if noted then [EditNoted] else [], Observed(s.job, snapshot, scope));
        assert [] + [EditNoted] == [EditNoted];
      case Pause =>
        events := if s.pending.Some? then [] + [TimerFired(s.pending.value.timer)] else [];
        if s.pending.Some? {
          RunConcat(s, [], TimerFired(s.pending.value.timer));
        }
      case UndoApplied =>
        events := AppliedRun(s, UndoPressed, Undo(s));
      case RedoApplied =>
        events := AppliedRun(s, RedoPressed, Redo(s));
    }
  }

  lemma AppliedRun(s: State, press: Event, pressed: (State, Option<Snapshot>)) returns (events: seq<Event>)
    requires s.scope.Some? && Step(s, press) == pressed.0
    ensures Run(s, events) == Apply(s, pressed)
  {
    RunConcat(s, [], press);
    events := [] + [press];
    if pressed.1.Some? {
      RunConcat(s, events, Observed(s.job, pressed.1.value, s.scope.value));
      events := events + [Observed(s.job, pressed.1.value, s.scope.value)];
    }
  }
}
