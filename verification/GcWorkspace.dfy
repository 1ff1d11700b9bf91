/** applyGcPlan and recoverGcStaging as they run, loop by loop, on files and rows in place.  The
    process may die before any step (if `mayDie`), and which calls fail is given with the faults;
    every state the methods pass through is a state of the protocol. */
module GcWorkspace {
  import opened Outcomes
  import opened GcProtocol

  /** `Stuck`: a file could not be moved back, and the rest was left for the next recovery. */
  datatype Ending = Succeeded | Failed | Stuck | Crashed | Refused

  /** Whether the process may die; whether a candidate changed since the plan; whether making the
      directory or writing the receipt fails; the files that do not move out; whether the transaction
      fails; and the files that do not move back. */
  datatype GcFaults = GcFaults(mayDie: bool, proofChanged: bool, setupFails: bool, out: set<string>,
                               transactionFails: bool, stuck: set<string>)

  class Workspace {
    const plan: GcPlan
    var live: map<string, string>
    var staging: Option<Staging>
    var committed: bool
    var rows: set<RowId>
    ghost var pc: Pc
    /** The protocol states this workspace has been through. */
    ghost var run: seq<State>

    ghost function Snapshot(): State
      reads this
    {
      State(live, staging, committed, rows, pc)
    }

    ghost predicate Valid()
      reads this
    {
      Run(plan, run) && run[|run| - 1] == Snapshot()
    }

    constructor (plan: GcPlan, live: map<string, string>, rows: set<RowId>)
      requires forall p | p in plan.files :: p in live
      ensures Valid() && this.plan == plan && this.live == live && this.rows == rows
      ensures pc == Recovered && !committed && |run| == 1
    {
      this.plan := plan;
      this.live := live;
      this.rows := rows;
      staging := None;
      committed := false;
      pc := Recovered;
      run := [State(live, None, false, rows, Recovered)];
    }

    /** Note the state reached by one protocol step. */
    ghost method Reached(a: Action)
      requires Run(plan, run)
      requires Step(plan, run[|run| - 1], Snapshot(), a)
      modifies this`run
      ensures Valid() && run == old(run) + [Snapshot()]
    {
      RunGoesOn(plan, run, Snapshot(), a);
      run := run + [Snapshot()];
    }

    /** The process dies here, if fate will have it. */
    method Crashes(mayDie: bool) returns (dead: bool)
      requires Valid()
      modifies this`pc, this`run
      ensures Valid() && old(run) <= run && run[0] == old(run)[0]
      ensures dead ==> mayDie && pc.Down?
      ensures !dead ==> pc == old(pc) && run == old(run)
    {
      var dies: bool := *;
      if mayDie && dies {
        pc := Down;
        Reached(Crash);
        return true;
      }
      return false;
    }

    /** `rm(staging, { recursive: true, force: true })`: entries go one by one, in no set order. */
    method RemoveStaging(mayDie: bool) returns (dead: bool)
      requires Valid() && (pc.Cleaning? || pc.Removing?)
      modifies this`staging, this`pc, this`run
      ensures Valid() && old(run) <= run
      ensures dead ==> mayDie && pc.Down?
      ensures !dead ==> staging.None? && pc == if old(pc).Removing? then Recovered else Down
    {
      while staging.Some? && staging.value != Staging(None, map[])
        invariant Valid() && old(run) <= run && pc == old(pc)
        decreases if staging.Some? then |staging.value.files| + (if staging.value.receipt.Some? then 1 else 0) else 0
      {
        dead := Crashes(mayDie);
        if dead {
          return;
        }
        RemoveOneEntry();
      }
      staging := None;
      pc := if pc.Removing? then Recovered else Down;
      Reached(RemoveEnds);
      return false;
    }

    method RemoveOneEntry()
      requires Valid() && (pc.Cleaning? || pc.Removing?)
      requires staging.Some? && staging.value != Staging(None, map[])
      modifies this`staging, this`run
      ensures Valid() && old(run) <= run && staging.Some?
      ensures |staging.value.files| + (if staging.value.receipt.Some? then 1 else 0)
              < old(|staging.value.files| + if staging.value.receipt.Some? then 1 else 0)
    {
      var directory := staging.value;
      var receiptNext: bool := *;
      if directory.receipt.Some? && (directory.files == map[] || receiptNext) {
        staging := Some(directory.(receipt := None));
        Reached(RemoveReceipt);
      } else {
        var path :| path in directory.files;
        staging := Some(directory.(files := directory.files - {path}));
        assert directory.files.Keys == (directory.files - {path}).Keys + {path};
        Reached(RemoveFile(path));
      }
    }

    method PutBackOne(left: nat)
      requires Valid() && pc == PuttingBack(left + 1) && left < |plan.files|
      modifies this`live, this`staging, this`pc, this`run
      ensures Valid() && old(run) <= run && pc == PuttingBack(left)
    {
      MoveBack(plan.files[left]);
      pc := PuttingBack(left);
      Reached(PutBackFile);
    }

    /** The catch block: staged files go back in reverse order, then staging is removed. The first
        one that cannot go back ends it, with what is staged still there for a recovery. */
    method PutBack(staged: nat, mayDie: bool, stuck: set<string>) returns (ending: Ending)
      requires Valid() && pc == PuttingBack(staged) && staged <= |plan.files| && !committed
      modifies this`live, this`staging, this`pc, this`run
      ensures Valid() && old(run) <= run && !committed
      ensures pc.Down? && (ending.Failed? || ending.Stuck? || ending.Crashed?) && (ending.Crashed? ==> mayDie)
      ensures ending.Failed? ==> stuck !! Listed(plan.files[..staged])
      ensures ending.Failed? ==> staging.None? && live == run[0].live && rows == run[0].rows
      ensures ending.Stuck? ==> HeldBack(stuck)
    {
      var left: nat := staged;
      while left > 0
        invariant Valid() && old(run) <= run && pc == PuttingBack(left) && left <= staged
        invariant forall i | left <= i < staged :: plan.files[i] !in stuck
      {
        var dead := Crashes(mayDie);
        if dead {
          return Crashed;
        }
        if plan.files[left - 1] in stuck {
          StuckIsHeldBack(left, stuck);
          pc := Down;
          Reached(PutBackFails);
          return Stuck;
        }
        left := left - 1;
        PutBackOne(left);
      }
      pc := Cleaning;
      Reached(PutBackEnds);
      var dead := RemoveStaging(mayDie);
      if dead {
        return Crashed;
      }
      RunKeepsInv(plan, run, |run| - 1);
      assert live + map[] == live;
      return Failed;
    }

    /** What is left when a file could not go back: no row has changed, every file is in its place or
        in staging, unharmed, the receipt names them, and one that cannot move is among those staged. */
    ghost predicate HeldBack(stuck: set<string>)
      requires run != []
      reads this
    {
      && !committed && rows == run[0].rows
      && staging.Some? && staging.value.receipt == Some(plan.files)
      && live.Keys !! staging.value.files.Keys && live + staging.value.files == run[0].live
      && exists path :: path in staging.value.files && path in stuck && path in plan.files
    }

    lemma StuckIsHeldBack(left: nat, stuck: set<string>)
      requires Valid() && pc == PuttingBack(left) && 0 < left <= |plan.files| && !committed
      requires plan.files[left - 1] in stuck
      ensures HeldBack(stuck)
    {
      RunKeepsInv(plan, run, |run| - 1);
      assert plan.files[left - 1] in Listed(plan.files[..left]) by {
        assert plan.files[..left][left - 1] == plan.files[left - 1];
      }
    }

    method MoveBack(path: string)
      modifies this`live, this`staging
      ensures Snapshot() == MovedBack(old(Snapshot()), path, pc)
    {
      if staging.Some? && path in staging.value.files && path !in live {
        live := live[path := staging.value.files[path]];
        staging := Some(staging.value.(files := staging.value.files - {path}));
      }
    }

    /** From wherever the last run left the workspace to the end of Apply. A recovery that fails is
        passed over; what protects its files then is the proof, which no longer agrees while a
        candidate is not in its place. */
    method ApplyGcPlan(faults: GcFaults) returns (ending: Ending)
      requires Valid() && (pc.Recovered? || pc.Down?)
      modifies this
      ensures Valid() && old(run) <= run && (pc.Down? || pc.Recovered?)
      ensures ending.Succeeded? ==> committed && staging.None?
      ensures ending.Succeeded? ==> live == run[0].live - Listed(plan.files) && rows == run[0].rows - plan.doomed
      ensures ending.Failed? ==> !committed && staging.None? && live == run[0].live && rows == run[0].rows
      ensures ending.Stuck? ==> HeldBack(faults.stuck)
      ensures ending.Refused? ==> committed == old(committed) && rows == old(rows)
      ensures old(committed) ==> ending.Refused? || ending.Crashed?
      ensures ending.Crashed? ==> faults.mayDie
      ensures !faults.mayDie && faults.stuck !! Listed(plan.files) ==> (ending.Refused? <==> old(committed) || faults.proofChanged)
      ensures !faults.mayDie && faults.stuck !! Listed(plan.files) && !old(committed) && !faults.proofChanged ==>
        (ending.Succeeded? <==> old(Clearable(staging)) && !faults.setupFails && CanCollect(faults))
    {
      var recovery := RecoverGcStaging(faults.mayDie, faults.stuck);
      if recovery.Crashed? {
        return Crashed;
      }
      if committed || faults.proofChanged || exists p | p in plan.files :: p !in live {
        return Refused;
      }
      ending := ApplyChecked(faults);
      RunKeepsInv(plan, run, |run| - 1);
    }

    /** The directory of an earlier attempt, if there is one, has a receipt for recovery to go by. */
    static predicate Clearable(staging: Option<Staging>) {
      staging.Some? ==> staging.value.receipt.Some?
    }

    predicate CanCollect(faults: GcFaults) {
      faults.out !! Listed(plan.files) && Distinct(plan.files) && !faults.transactionFails
    }

    method ApplyChecked(faults: GcFaults) returns (ending: Ending)
      requires Valid() && (pc.Recovered? || pc.Down?) && !committed && forall p | p in plan.files :: p in live
      modifies this
      ensures Valid() && old(run) <= run && pc.Down? && !ending.Refused? && (ending.Crashed? ==> faults.mayDie)
      ensures ending.Succeeded? ==> committed && staging.None?
      ensures ending.Failed? ==> !committed && staging.None? && live == run[0].live && rows == run[0].rows
      ensures ending.Stuck? ==> HeldBack(faults.stuck)
      ensures !faults.mayDie ==> (ending.Succeeded? <==> old(staging).None? && !faults.setupFails && CanCollect(faults))
    {
      var dead := Crashes(faults.mayDie);
      if dead {
        return Crashed;
      }
      if staging.Some? {
        ending := RemoveLeftovers(faults.mayDie);
        return;
      }
      MakeStaging();
      dead := Crashes(faults.mayDie);
      if dead {
        return Crashed;
      }
      if faults.setupFails {
        pc := PuttingBack(0);
        Reached(StepFails);
        ending := PutBack(0, faults.mayDie, faults.stuck);
        return;
      }
      WriteReceiptFile();
      ending := StageAndCommit(faults);
    }

    method MakeStaging()
      requires Valid() && (pc.Recovered? || pc.Down?) && !committed && forall p | p in plan.files :: p in live
      requires staging.None?
      modifies this`staging, this`pc, this`run
      ensures Valid() && old(run) <= run && pc == Created && staging.Some?
    {
      staging := Some(Staging(None, map[]));
      pc := Created;
      Reached(MakeDirectory);
    }

    method WriteReceiptFile()
      requires Valid() && pc == Created && staging.Some?
      modifies this`staging, this`pc, this`run
      ensures Valid() && old(run) <= run && pc == Moving(0) && staging.Some?
    {
      staging := Some(staging.value.(receipt := Some(plan.files)));
      pc := Moving(0);
      Reached(WriteReceipt);
    }

    /** mkdir fails on the directory a failed recovery left; with every file in its place it is
        empty but for its receipt, and is removed. */
    method RemoveLeftovers(mayDie: bool) returns (ending: Ending)
      requires Valid() && (pc.Recovered? || pc.Down?) && !committed && forall p | p in plan.files :: p in live
      requires staging.Some?
      modifies this`staging, this`pc, this`run
      ensures Valid() && old(run) <= run && pc.Down? && (ending.Failed? || (ending.Crashed? && mayDie))
      ensures ending.Failed? ==> staging.None? && live == run[0].live && rows == run[0].rows
    {
      pc := Cleaning;
      Reached(MakeDirectory);
      var dead := RemoveStaging(mayDie);
      if dead {
        return Crashed;
      }
      RunKeepsInv(plan, run, |run| - 1);
      assert live + map[] == live;
      return Failed;
    }

    method Stage(i: nat)
      requires Valid() && pc == Moving(i) && staging.Some? && !committed
      requires i < |plan.files| && plan.files[i] in live
      modifies this`live, this`staging, this`pc, this`run
      ensures Valid() && old(run) <= run && pc == Moving(i + 1) && staging.Some?
    {
      var path := plan.files[i];
      staging := Some(staging.value.(files := staging.value.files[path := live[path]]));
      live := live - {path};
      pc := Moving(i + 1);
      Reached(StageFile);
    }

    /** A candidate is in its place until it is staged. */
    lemma LiveUnlessStaged(i: nat)
      requires Valid() && pc == Moving(i) && !committed && i < |plan.files|
      ensures plan.files[i] in live <==> plan.files[i] !in Listed(plan.files[..i])
      ensures Distinct(plan.files[..i + 1]) <==> Distinct(plan.files[..i]) && plan.files[i] in live
      ensures plan.files[i] !in live ==> !Distinct(plan.files)
    {
      RunKeepsInv(plan, run, |run| - 1);
      ListedStep(plan.files, i);
      assert plan.files[i] in run[0].live;
    }

    /** The staging loop, up to the first file that does not move. */
    method StageAll(faults: GcFaults) returns (dead: bool, done: nat)
      requires Valid() && pc == Moving(0) && staging.Some? && !committed
      modifies this`live, this`staging, this`pc, this`run
      ensures Valid() && old(run) <= run && !committed && done <= |plan.files|
      ensures if dead then faults.mayDie && pc.Down? else pc == Moving(done) && staging.Some?
      ensures !dead ==> (done == |plan.files| <==> faults.out !! Listed(plan.files) && Distinct(plan.files))
    {
      dead, done := false, 0;
      while done < |plan.files|
        invariant Valid() && old(run) <= run && done <= |plan.files| && pc == Moving(done) && staging.Some? && !committed
        invariant Distinct(plan.files[..done]) && forall k | 0 <= k < done :: plan.files[k] !in faults.out
      {
        dead := Crashes(faults.mayDie);
        if dead {
          return;
        }
        LiveUnlessStaged(done);
        if plan.files[done] !in live || plan.files[done] in faults.out {
          assert plan.files[done] in Listed(plan.files);
          return;
        }
        Stage(done);
        done := done + 1;
      }
      assert plan.files[..|plan.files|] == plan.files;
    }

    method StageAndCommit(faults: GcFaults) returns (ending: Ending)
      requires Valid() && pc == Moving(0) && staging.Some? && !committed
      modifies this
      ensures Valid() && old(run) <= run && pc.Down? && !ending.Refused? && (ending.Crashed? ==> faults.mayDie)
      ensures ending.Succeeded? ==> committed && staging.None?
      ensures ending.Failed? ==> !committed && staging.None? && live == run[0].live && rows == run[0].rows
      ensures ending.Stuck? ==> HeldBack(faults.stuck)
      ensures !faults.mayDie ==> (ending.Succeeded? <==> CanCollect(faults))
    {
      var dead, done := StageAll(faults);
      if dead {
        return Crashed;
      }
      if done < |plan.files| || faults.transactionFails {
        pc := PuttingBack(done);
        Reached(StepFails);
        ending := PutBack(done, faults.mayDie, faults.stuck);
        return;
      }
      dead := Crashes(faults.mayDie);
      if dead {
        return Crashed;
      }
      rows := rows - plan.doomed;
      committed := true;
      pc := Cleaning;
      Reached(Commit);
      dead := RemoveStaging(faults.mayDie);
      return if dead then Crashed else Succeeded;
    }

    /** A recovery that neither dies nor meets a file it cannot move runs to its end; one that meets such
        a file is given up for this time, with that file among those still staged. */
    method RecoverGcStaging(mayDie: bool, stuck: set<string>) returns (ending: Ending)
      requires Valid() && (pc.Down? || pc.Recovered?)
      modifies this`live, this`staging, this`pc, this`run
      ensures Valid() && old(run) <= run
      ensures ending.Succeeded? ==> pc.Recovered?
      ensures !ending.Succeeded? ==> pc.Down? && (ending.Stuck? || (ending.Crashed? && mayDie))
      ensures ending.Stuck? ==> HeldBack(stuck)
      ensures !mayDie && stuck !! Listed(plan.files) ==> ending.Succeeded?
      ensures ending.Succeeded? ==> staging == if old(Clearable(staging)) then None else old(staging)
      ensures committed == old(committed) && rows == old(rows)
      ensures ending.Succeeded? && !committed ==> live == run[0].live && rows == run[0].rows
      ensures ending.Succeeded? && committed ==>
                live == run[0].live - Listed(plan.files) && rows == run[0].rows - plan.doomed
    {
      var dead := Crashes(mayDie);
      if dead {
        return Crashed;
      }
      if staging.None? || staging.value.receipt.None? {
        pc := Recovered;
        Reached(BeginRecovery);
      } else {
        if committed {
          pc := Removing;
          Reached(BeginRecovery);
        } else {
          pc := Repairing(0);
          Reached(BeginRecovery);
          ending := Repair(mayDie, stuck);
          if !ending.Succeeded? {
            return;
          }
        }
        dead := RemoveStaging(mayDie);
        if dead {
          return Crashed;
        }
      }
      RecoveryIsAtomic(plan, run, |run| - 1);
      return Succeeded;
    }

    lemma RepairIsHeldBack(i: nat, stuck: set<string>)
      requires Valid() && pc == Repairing(i) && !committed && staging.Some? && staging.value.receipt.Some?
      requires i < |staging.value.receipt.value| && staging.value.receipt.value[i] in staging.value.files
      requires staging.value.receipt.value[i] in stuck
      ensures HeldBack(stuck)
    {
      RunKeepsInv(plan, run, |run| - 1);
    }

    method RepairOne(i: nat)
      requires Valid() && pc == Repairing(i) && staging.Some? && staging.value.receipt.Some?
      requires i < |staging.value.receipt.value|
      modifies this`live, this`staging, this`pc, this`run
      ensures Valid() && old(run) <= run && pc == Repairing(i + 1)
      ensures staging.Some? && staging.value.receipt == old(staging).value.receipt
    {
      MoveBack(staging.value.receipt.value[i]);
      pc := Repairing(i + 1);
      Reached(RepairFile);
    }

    method Repair(mayDie: bool, stuck: set<string>) returns (ending: Ending)
      requires Valid() && pc == Repairing(0) && staging.Some? && staging.value.receipt.Some? && !committed
      modifies this`live, this`staging, this`pc, this`run
      ensures Valid() && old(run) <= run
      ensures if ending.Succeeded? then pc.Removing? else pc.Down?
      ensures !ending.Succeeded? ==> ending.Stuck? || (ending.Crashed? && mayDie)
      ensures ending.Stuck? ==> HeldBack(stuck)
    {
      var files := staging.value.receipt.value;
      for i := 0 to |files|
        invariant Valid() && old(run) <= run && pc == Repairing(i)
        invariant staging.Some? && staging.value.receipt == Some(files)
      {
        var dead := Crashes(mayDie);
        if dead {
          return Crashed;
        }
        if staging.Some? && files[i] in staging.value.files && files[i] !in live && files[i] in stuck {
          RepairIsHeldBack(i, stuck);
          pc := Down;
          Reached(RepairFails);
          return Stuck;
        }
        RepairOne(i);
      }
      pc := Removing;
      Reached(RepairEnds);
      return Succeeded;
    }
  }
}
