/** A deleted source brought back the way the program does it: the deletion is committed to the
    log, the restore looks it up there and commits its reversal (restore-workflows.ts). */
module SourceRestore {
  import opened Outcomes
  import opened MutationStore
  import opened MutationLaws
  import opened Undo
  import opened StateChanges
  import opened OperationLog
  import opened OperationHistory
  import opened Cells
  import opened SourceImpact
  import opened SourceDelete

  // ---- the latest deletion ----

  lemma {:induction false} LatestIsLast(log: seq<Operation>, op: Operation, kind: Kind, id: string)
    requires DeletesResource(op, kind, id)
    ensures LatestDelete(log + [op], kind, id) == Some(|log|)
  {
    assert (log + [op])[|log|] == op;
  }

  lemma {:induction false} RecordedDeletion(plan: seq<Change>, recorded: seq<Recorded>, i: nat, now: string, op: Operation)
    requires |recorded| == |plan| && forall j | 0 <= j < |plan| :: recorded[j] == RecordOf(plan[j], now)
    requires i < |plan| && plan[i].changeKind == "deleted" && op.changes == recorded
    ensures DeletesResource(op, plan[i].kind, plan[i].resourceId)
  {
    assert op.changes[i] == RecordOf(plan[i], now);
  }

  // ---- the version a restore is asked for ----

  lemma {:induction false} PrimaryIsOnly(changes: seq<Change>, kind: Kind, id: string, i: nat)
    requires i < |changes| && changes[i].kind == kind && changes[i].resourceId == id
    requires forall j | 0 <= j < i :: !(changes[j].kind == kind && changes[j].resourceId == id)
    ensures PrimaryVersion(changes, kind, id) == NumberIn(FirstNonNull(changes[i].before, Version, Revision))
    decreases |changes|
  {
    if i > 0 {
      PrimaryIsOnly(changes[1..], kind, id, i - 1);
    }
  }

  /** Two of a plan's distinct good changes name two resources. */
  lemma {:induction false} NamedOnce(plan: seq<Change>, i: nat, j: nat)
    requires Distinct(plan) && AllGood(plan) && i < |plan| && j < |plan| && i != j
    ensures plan[i].kind != plan[j].kind || plan[i].resourceId != plan[j].resourceId
  {
    assert TargetOf(plan[i]) != TargetOf(plan[j]);
  }

  lemma UndoExpectsWritten(c: Change, now: string)
    requires Good(c) && VersionColumnOf(c.kind).Some?
    ensures NumberIn(FirstNonNull(UndoOf(c, now).before, Version, Revision)) == Some(WrittenVersion(c))
  {
    SpecFacts(c.kind);
    assert Materialize(c.after, now).Keys == c.after.Keys;
  }

  lemma {:induction false} RestoreComparesVersion(plan: seq<Change>, now: string, i: nat)
    requires Distinct(plan) && AllGood(plan) && i < |plan| && VersionColumnOf(plan[i].kind).Some?
    ensures PrimaryVersion(UndoPlan(plan, now), plan[i].kind, plan[i].resourceId) == Some(WrittenVersion(plan[i]))
  {
    var undo := UndoPlan(plan, now);
    forall j | 0 <= j < i ensures !(undo[j].kind == plan[i].kind && undo[j].resourceId == plan[i].resourceId) {
      NamedOnce(plan, i, j);
    }
    PrimaryIsOnly(undo, plan[i].kind, plan[i].resourceId, i);
    UndoExpectsWritten(plan[i], now);
  }

  // ---- delete, then restore ----

  ghost predicate LinksLookBack(sys: System) {
    forall j | 0 <= j < |sys.log| && sys.log[j].undoOf.Some? :: sys.log[j].undoOf.value < |sys.log|
  }

  lemma {:induction false} RunLinksLookBack(run: seq<System>, j: nat)
    requires Run(run) && j < |run|
    ensures LinksLookBack(run[j])
  {
    RunKeepsInv(run, j);
  }

  lemma {:induction false} NewestIsNotUndone(sys: System, op: Operation)
    requires LinksLookBack(sys) && op.undoOf.None?
    ensures !Undone(sys.log + [op], |sys.log|)
  {
    var log := sys.log + [op];
    forall j | 0 <= j < |log| ensures log[j].undoOf != Some(|sys.log|) {
      if j < |sys.log| {
        assert log[j] == sys.log[j];
      }
    }
  }

  /** What the commit of a deletion leaves. */
  ghost predicate Deleted(sys: System, mid: System, plan: seq<Change>, t1: Time) {
    && AppliedRows(sys.rows, plan, t1) == mid.rows && ApplyAll(sys.rows, plan, t1).Success?
    && mid.log == sys.log + [Operation(ApplyAll(sys.rows, plan, t1).value.1, true, None)]
    && mid.plans == sys.plans
  }

  lemma {:induction false} DeletionCommits(sys: System, plan: seq<Change>, t1: Time) returns (mid: System)
    requires Distinct(plan) && AllCheck(sys.rows, plan) && AllWritable(plan)
    ensures Commit(sys, plan, t1, true, None) == Success(mid) && Deleted(sys, mid, plan, t1)
  {
    FirstCheckErrorPasses(sys.rows, plan);
    SequentialIsSimultaneous(sys.rows, plan, t1);
    mid := Commit(sys, plan, t1, true, None).value;
  }

  /** The restore finds this deletion, whatever was deleted before, and would commit its reversal. */
  lemma {:induction false} RestoreFindsDeletion(sys: System, mid: System, plan: seq<Change>, i: nat, ifVersion: Option<int>,
                                                t1: Time, t2: Time)
    requires LinksLookBack(sys) && Distinct(plan) && AllGood(plan) && AllReversible(plan) && Deleted(sys, mid, plan, t1)
    requires i < |plan| && plan[i].changeKind == "deleted" && VersionColumnOf(plan[i].kind).Some?
    ensures LatestDelete(mid.log, plan[i].kind, plan[i].resourceId) == Some(|sys.log|)
    ensures Restore(mid, plan[i].kind, plan[i].resourceId, ifVersion, t2) ==
            if ifVersion.Some? && ifVersion.value != WrittenVersion(plan[i]) then Failure(VersionMismatch)
            else Commit(mid, UndoPlan(plan, t1), t2, true, Some(|sys.log|))
  {
    var recorded := ApplyAll(sys.rows, plan, t1).value.1;
    var op := Operation(recorded, true, None);
    SequentialIsSimultaneous(sys.rows, plan, t1);
    RecordedDeletion(plan, recorded, i, t1, op);
    LatestIsLast(sys.log, op, plan[i].kind, plan[i].resourceId);
    NewestIsNotUndone(sys, op);
    UndoGoesThrough(sys.rows, plan, t1, t2);
    RestoreComparesVersion(plan, t1, i);
    assert mid.log[|sys.log|] == op;
  }

  lemma {:induction false} ReversalCommits(sys: System, mid: System, plan: seq<Change>, t1: Time, t2: Time, undoOf: Option<nat>)
    requires Distinct(plan) && AllReversible(plan) && Deleted(sys, mid, plan, t1)
    ensures Commit(mid, UndoPlan(plan, t1), t2, true, undoOf).Success?
    ensures Commit(mid, UndoPlan(plan, t1), t2, true, undoOf).value.rows == AppliedRows(mid.rows, UndoPlan(plan, t1), t2)
  {
    AppliedHolds(sys.rows, plan, t1);
    UndoPasses(mid.rows, plan, t1);
    FirstCheckErrorPasses(mid.rows, UndoPlan(plan, t1));
    UndoGoesThrough(sys.rows, plan, t1, t2);
  }

  /** Any planned deletion, restored right after. */
  lemma {:induction false} DeletionIsRestored(sys: System, plan: seq<Change>, i: nat, ifVersion: Option<int>, t1: Time, t2: Time)
    returns (mid: System)
    requires LinksLookBack(sys) && Fresh(sys.rows, plan) && AllCheck(sys.rows, plan) && AllWritable(plan)
    requires i < |plan| && plan[i].changeKind == "deleted" && VersionColumnOf(plan[i].kind).Some?
    ensures Commit(sys, plan, t1, true, None) == Success(mid) && Deleted(sys, mid, plan, t1)
    ensures LatestDelete(mid.log, plan[i].kind, plan[i].resourceId) == Some(|sys.log|)
    ensures var back := Restore(mid, plan[i].kind, plan[i].resourceId, ifVersion, t2);
      && (back.Success? <==> ifVersion.None? || ifVersion.value == VersionAt(mid.rows, TargetOf(plan[i])))
      && (back.Success? ==> back.value.rows == AppliedRows(mid.rows, UndoPlan(plan, t1), t2))
  {
    mid := DeletionCommits(sys, plan, t1);
    CommitCommits(sys, plan, t1, true, None);
    RestoreFindsDeletion(sys, mid, plan, i, ifVersion, t1, t2);
    ReversalCommits(sys, mid, plan, t1, t2, Some(|sys.log|));
  }

  // ---- the source ----

  /** The plan has the source's own deletion in it. */
  lemma {:induction false} SourceIsInPlan(rows: Store, links: Links, source: string) returns (i: nat)
    requires Deletable(rows, links, source)
    ensures var plan := SourceDeletePlan(rows, links, source);
      && i < |plan| && plan[i].kind == Source && plan[i].resourceId == source && plan[i].changeKind == "deleted"
      && TargetOf(plan[i]) == Key(Source, [source])
  {
    var plan, cell := SourceDeletePlan(rows, links, source), SourceCell(source);
    DirectCellsAreParts(links, source);
    assert cell in DirectCells(links, source)[0];
    assert cell in SourceCells(rows, links, source);
    SourceChanges(rows, source);
    ChangesComeFromCells(rows, SourceCells(rows, links, source), CellChange(rows, cell).value);
    i :| 0 <= i < |plan| && plan[i] == CellChange(rows, cell).value;
  }

  lemma SourceChanges(rows: Store, source: string)
    requires Key(Source, [source]) in rows && Lookup(rows[Key(Source, [source])], State) != Text("deleted")
    ensures var made := CellChange(rows, SourceCell(source));
      made.Some? && made.value.kind == Source && made.value.resourceId == source && made.value.changeKind == "deleted"
      && TargetOf(made.value) == Key(Source, [source])
  {
    var row := Project(rows[Key(Source, [source])], SourceCell(source).columns);
    assert Lookup(row, State) == Lookup(rows[Key(Source, [source])], State);
  }

  /** Deleting a source and restoring it right after, both through the log: the restore picks this
      deletion, is refused exactly if asked for another version than the deletion wrote, and brings
      every row back. */
  lemma {:induction false} RestoreWorkflowBringsAllBack(sys: System, links: Links, source: string, ifVersion: Option<int>,
                                                        t1: Time, t2: Time) returns (mid: System)
    requires LinksLookBack(sys) && Deletable(sys.rows, links, source)
    ensures var plan := SourceDeletePlan(sys.rows, links, source);
      && Commit(sys, plan, t1, true, None) == Success(mid)
      && LatestDelete(mid.log, Source, source) == Some(|sys.log|)
      && var back := Restore(mid, Source, source, ifVersion, t2);
      && (back.Success? <==> ifVersion.None? || ifVersion.value == VersionAt(mid.rows, Key(Source, [source])))
      && (back.Success? ==> forall k | k in sys.rows :: BroughtBack(sys.rows, back.value.rows, plan, k))
  {
    var plan := SourceDeletePlan(sys.rows, links, source);
    SourceCellsAreGood(sys.rows, links, source);
    MadeChangesAreFresh(sys.rows, SourceCells(sys.rows, links, source));
    var i := SourceIsInPlan(sys.rows, links, source);
    mid := DeletionIsRestored(sys, plan, i, ifVersion, t1, t2);
    AllBroughtBack(sys.rows, mid.rows, plan, t1, t2);
  }

  lemma {:induction false} AllBroughtBack(rows: Store, later: Store, plan: seq<Change>, t1: Time, t2: Time)
    requires Distinct(plan) && AllGood(plan) && forall i | 0 <= i < |plan| :: NOW !in plan[i].before.Values
    requires ApplyAll(rows, plan, t1).Success? && later == AppliedRows(rows, plan, t1)
    ensures forall k | k in rows :: BroughtBack(rows, AppliedRows(later, UndoPlan(plan, t1), t2), plan, k)
  {
    forall k | k in rows ensures BroughtBack(rows, AppliedRows(later, UndoPlan(plan, t1), t2), plan, k) {
      PlanBringsBack(rows, plan, t1, t2, k);
    }
  }
}
