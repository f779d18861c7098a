/** The undo history as the canvas drives it: an object whose methods follow the
    state machine of UndoModel step by step. */
module UndoHistory {
  import opened Graph
  import opened UndoModel

  class UndoHistory {
    var stacks: map<Name, Stack>
    var baseline: map<Name, Snapshot>
    var pending: Option<Pending>
    var suppress: bool
    var editNoted: bool
    var scope: Option<Name>
    var job: Name
    var latest: Snapshot
    var armed: set<nat>
    var nextTimer: nat

    function View(): State
      reads this
    {
      State(stacks, baseline, pending, suppress, editNoted, scope, job, latest, armed, nextTimer)
    }

    constructor (job: Name, initial: Snapshot)
      ensures View() == Initial(job, initial)
    {
      stacks, baseline, pending := map[], map[], None;
      suppress, editNoted, scope := false, false, None;
      this.job, latest := job, initial;
      armed, nextTimer := {}, 0;
    }

    /** Cancel the timer of the pending edit, if there is one. */
    method Cancel()
      modifies this`armed
      ensures View() == CancelTimer(old(View()))
    {
      if pending.Some? {
        armed := armed - {pending.value.timer};
      }
    }

    method FindStack(job: Name) returns (st: Stack)
      modifies this`stacks
      ensures st == StackFor(old(View()), job)
      ensures View() == old(View()).(stacks := old(stacks)[job := st])
    {
      if job !in stacks {
        stacks := stacks[job := Stack([], [])];
      }
      st := stacks[job];
      assert stacks == stacks[job := st];
    }

    method Observe(job: Name, snapshot: Snapshot, scope: Name)
      modifies this
      ensures View() == UndoModel.Observe(old(View()), job, snapshot, scope)
    {
      latest := snapshot;
      var noted := editNoted;
      editNoted := false;
      if this.scope != Some(scope) {
        Cancel();
        pending := None;
        stacks := map[];
        baseline := map[];
        suppress := false;
        this.scope := Some(scope);
        this.job := job;
        baseline := baseline[job := snapshot];
        return;
      }
      if this.job != job {
        Flush();
        this.job := job;
        baseline := baseline[job := snapshot];
        var _ := FindStack(job);
        return;
      }
      var carried := pending;
      Cancel();
      pending := None;
      if suppress {
        suppress := false;
        baseline := baseline[job := snapshot];
        return;
      }
      if job !in baseline {
        baseline := baseline[job := snapshot];
        return;
      }
      var base := baseline[job];
      var isNoted := noted || (carried.Some? && carried.value.noted);
      if !isNoted && base.key == snapshot.key {
        return;
      }
      pending := Some(Pending(job, base, snapshot, isNoted, nextTimer));
      armed := armed + {nextTimer};
      nextTimer := nextTimer + 1;
    }

    method NoteEdit()
      modifies this
      ensures View() == UndoModel.NoteEdit(old(View()))
    {
      editNoted := true;
    }

    method Flush()
      modifies this
      ensures View() == UndoModel.Flush(old(View()))
    {
      if pending.None? {
        return;
      }
      Cancel();
      Commit();
    }

    method Commit()
      modifies this
      ensures View() == UndoModel.Commit(old(View()))
    {
      if pending.None? {
        return;
      }
      var p := pending.value;
      pending := None;
      var st := FindStack(p.job);
      var past := st.past + [p.prev];
      if |past| > HISTORY_LIMIT {
        past := past[1..];
      }
      stacks := stacks[p.job := Stack(past, [])];
      baseline := baseline[p.job := p.settled];
    }

    /** What the timer service does when the timer with this number is due. */
    method TimerFires(timer: nat)
      modifies this
      ensures View() == UndoModel.TimerFires(old(View()), timer)
    {
      if timer in armed {
        armed := armed - {timer};
        Commit();
      }
    }

    method Undo() returns (restored: Option<Snapshot>)
      modifies this
      ensures (View(), restored) == UndoModel.Undo(old(View()))
    {
      Flush();
      ghost var flushed := stacks;
      var st := FindStack(job);
      if st.past == [] {
        return None;
      }
      var restore := st.past[|st.past| - 1];
      stacks := stacks[job := Stack(st.past[..|st.past| - 1], st.future + [latest])];
      assert stacks == flushed[job := stacks[job]];
      suppress := true;
      baseline := baseline[job := restore];
      return Some(restore);
    }

    method Redo() returns (restored: Option<Snapshot>)
      modifies this
      ensures (View(), restored) == UndoModel.Redo(old(View()))
    {
      Flush();
      ghost var flushed := stacks;
      var st := FindStack(job);
      if st.future == [] {
        return None;
      }
      var restore := st.future[|st.future| - 1];
      stacks := stacks[job := Stack(st.past + [latest], st.future[..|st.future| - 1])];
      assert stacks == flushed[job := stacks[job]];
      suppress := true;
      baseline := baseline[job := restore];
      return Some(restore);
    }

    method Dispose()
      modifies this
      ensures View() == UndoModel.Dispose(old(View()))
    {
      Cancel();
      pending := None;
    }

    method CanUndo() returns (r: bool)
      ensures r == UndoModel.CanUndo(View())
    {
      r := (pending.Some? && pending.value.job == job) || (job in stacks && |stacks[job].past| > 0);
    }

    method CanRedo() returns (r: bool)
      ensures r == UndoModel.CanRedo(View())
    {
      r := job in stacks && |stacks[job].future| > 0;
    }
  }
}
