/** The workflows that apply plans in place: verify, write inside a transaction, log the
    operation, and put everything back when a step fails (apply-mutation.ts,
    restore-workflows.ts). */
module ApplyMutation {
  import opened Outcomes
  import opened MutationStore
  import opened Undo
  import opened OperationLog

  class Workspace {
    const database: Database
    var log: seq<Operation>
    var plans: map<nat, Plan>
    /** The Root's files, by path. */
    var files: map<string, string>

    constructor (rows: Store, files: map<string, string>)
      ensures Snapshot() == System(rows, [], map[]) && this.files == files
      ensures fresh(database)
    {
      database := new Database(rows);
      log := [];
      plans := map[];
      this.files := files;
    }

    function Snapshot(): System
      reads this, database
    {
      System(database.rows, log, plans)
    }

    /** applyChanges: the database is left exactly as it was unless every change goes in and
        the operation is logged with them. */
    method ApplyChanges(changes: seq<Change>, now: string, reversible: bool, undoOf: Option<nat>)
      returns (r: Outcome<Refusal>)
      modifies this`log, database
      ensures match Commit(old(Snapshot()), changes, now, reversible, undoOf)
              case Success(next) => Snapshot() == next && r == Pass
              case Failure(e) => Snapshot() == old(Snapshot()) && r == Fail(e)
    {
      var verified := database.VerifyMutationChanges(changes);
      if verified.Fail? {
        return Fail(Mutation(verified.error));
      }
      var saved := database.rows;
      var applied := database.ApplyMutationChanges(changes, now);
      match applied {
        case Failure(e) =>
          database.rows := saved;
          return Fail(Mutation(e));
        case Success(recorded) =>
          log := log + [Operation(recorded, reversible, undoOf)];
          return Pass;
      }
    }

    /** An applied plan answers with its earlier result and writes nothing; one that is cancelled or
        expired is refused. What is applied was ready, and its operation is logged. */
    method ApplyAutomationMutation(id: nat, now: string) returns (r: Outcome<Refusal>, reused: bool)
      modifies this`log, this`plans, database
      ensures match ApplyPlan(old(Snapshot()), id, now)
              case Success(next) => Snapshot() == next && r == Pass
              case Failure(e) => Snapshot() == old(Snapshot()) && r == Fail(e)
      ensures reused <==> id in old(plans) && old(plans)[id].state.Applied?
      ensures reused ==> r.Pass? && Snapshot() == old(Snapshot())
      ensures id !in old(plans) ==> r == Fail(PlanNotFound) && Snapshot() == old(Snapshot())
      ensures id in old(plans) && (old(plans)[id].state.Cancelled? || old(plans)[id].state.Expired?) ==>
                r == Fail(PlanNotReady) && Snapshot() == old(Snapshot())
      ensures r.Pass? ==> id in old(plans) && plans == old(plans)[id := old(plans)[id].(state := Applied)]
      ensures r.Pass? && !reused ==>
        && old(plans)[id].state.Ready? && FirstCheckError(old(database.rows), old(plans)[id].changes).Pass?
        && |log| == |old(log)| + 1 && log[..|old(log)|] == old(log)
        && log[|old(log)|].reversible == old(plans)[id].reversible && log[|old(log)|].undoOf == old(plans)[id].undoOf
    {
      reused := false;
      if id !in plans {
        return Fail(PlanNotFound), false;
      }
      var plan := plans[id];
      if plan.state.Applied? {
        return Pass, true;
      }
      if !plan.state.Ready? {
        return Fail(PlanNotReady), false;
      }
      r := ApplyChanges(plan.changes, now, plan.reversible, plan.undoOf);
      if r.Pass? {
        plans := plans[id := plan.(state := Applied)];
      }
    }

    method RestoreDeletedResource(kind: Kind, resourceId: string, ifVersion: Option<int>, now: string)
      returns (r: Outcome<Refusal>)
      modifies this`log, database
      ensures match Restore(old(Snapshot()), kind, resourceId, ifVersion, now)
              case Success(next) => Snapshot() == next && r == Pass
              case Failure(e) => Snapshot() == old(Snapshot()) && r == Fail(e)
    {
      var latest := LatestDelete(log, kind, resourceId);
      if latest.None? {
        return Fail(NotDeleted);
      }
      var original := log[latest.value];
      if !original.reversible {
        return Fail(NotUndoable);
      }
      if Undone(log, latest.value) {
        return Fail(AlreadyUndone);
      }
      var reversed := Reverse(original.changes);
      if reversed.Failure? {
        return Fail(Mutation(reversed.error));
      }
      if ifVersion.Some? && PrimaryVersion(reversed.value, kind, resourceId) != ifVersion {
        return Fail(VersionMismatch);
      }
      r := ApplyChanges(reversed.value, now, true, latest);
    }

    /** The transaction of moderateGraphObject; for a claim, the recalculation is part of it. */
    method ModerateGraphObject(changes: seq<Change>, verdict: Option<Verdict>, now: string) returns (r: Outcome<Refusal>)
      modifies this`log, database
      ensures match (if verdict.Some? then ModerateClaim(old(Snapshot()), changes, verdict.value, now)
                     else Commit(old(Snapshot()), changes, now, false, None))
              case Success(next) => Snapshot() == next && r == Pass
              case Failure(e) => Snapshot() == old(Snapshot()) && r == Fail(e)
    {
      r := ApplyChanges(changes, now, false, None);
      if r.Pass? && verdict.Some? {
        database.rows := Recalculated(database.rows, verdict.value, now);
      }
    }

    /** applyNoteMove and applyNoteMoveUndo: the file moves first and moves back if the rows cannot
        follow. Given which of these goes wrong (the rename, the rename back, or the process dies in
        between), this is all that can come of it: both moved, or the rows as before and the file
        away from its place exactly if it had moved and could not come back. */
    method ApplyNoteMove(id: nat, from: string, to: string, expected: string, now: string, faults: MoveFaults)
      returns (r: Outcome<Refusal>)
      requires id in plans && plans[id].state.Ready?
      modifies this`log, this`plans, this`files, database
      ensures r.Pass? <==>
              && MoveFits(old(files), from, to, expected) && !faults.renameFails && !faults.dies
              && ApplyPlan(old(Snapshot()), id, now).Success?
      ensures r.Pass? ==> ApplyPlan(old(Snapshot()), id, now) == Success(Snapshot())
      ensures r.Fail? ==> Snapshot() == old(Snapshot())
      ensures files ==
        if MoveFits(old(files), from, to, expected) && !faults.renameFails && (r.Pass? || faults.dies || faults.backFails)
        then (old(files) - {from})[to := expected] else old(files)
    {
      if from !in files || to in files || files[from] != expected {
        return Fail(FileConflict);
      }
      if faults.renameFails {
        return Fail(RenameFailed);
      }
      files := (files - {from})[to := files[from]];
      if faults.dies {
        return Fail(ProcessDied);
      }
      var plan := plans[id];
      r := ApplyChanges(plan.changes, now, plan.reversible, plan.undoOf);
      if r.Pass? {
        plans := plans[id := plan.(state := Applied)];
        return;
      }
      if faults.backFails {
        return Fail(RenameFailed);
      }
      files := (files - {to})[from := files[to]];
    }
  }

  /** What goes wrong in a note move, if it gets there. */
  datatype MoveFaults = MoveFaults(renameFails: bool, dies: bool, backFails: bool)

  predicate MoveFits(files: map<string, string>, from: string, to: string, expected: string) {
    from in files && to !in files && files[from] == expected
  }
}
