/** The life of a plan over every run (apply-mutation.ts, undo-workflows.ts): only a ready plan is
    applied, and once; what is closed stays closed; what an undo logged is never undone itself. */
module PlanLife {
  import opened Outcomes
  import opened MutationStore
  import opened MutationLaws
  import opened Undo
  import opened StateChanges
  import opened OperationLog
  import opened OperationHistory

  /** The operation logs what the plan holds, change by change. */
  ghost predicate LoggedFrom(op: Operation, plan: Plan) {
    && op.reversible == plan.reversible && op.undoOf == plan.undoOf
    && |op.changes| == |plan.changes|
    && forall i | 0 <= i < |plan.changes| ::
         && KeyOf(op.changes[i]) == TargetOf(plan.changes[i])
         && op.changes[i].before == plan.changes[i].before
         && op.changes[i].changeKind == plan.changes[i].changeKind
  }

  /** A step that applies this plan and logs an operation. */
  ghost predicate Applies(s: System, t: System, id: nat) {
    |t.log| > |s.log| && exists now: Time :: NextStep(s, t, Apply(id, now))
  }

  /** Applying takes a ready plan, logs one operation with its changes, and makes it applied. */
  ghost predicate AppliedNow(s: System, t: System, id: nat) {
    && id in s.plans && s.plans[id].state.Ready?
    && t.plans == s.plans[id := s.plans[id].(state := Applied)]
    && |t.log| == |s.log| + 1 && t.log[..|s.log|] == s.log
    && LoggedFrom(t.log[|s.log|], s.plans[id])
  }

  lemma {:induction false} KindsAreLogged(rows: Store, plan: seq<Change>, now: string, i: nat)
    requires ApplyAll(rows, plan, now).Success? && i < |plan|
    ensures |ApplyAll(rows, plan, now).value.1| == |plan|
    ensures ApplyAll(rows, plan, now).value.1[i].changeKind == plan[i].changeKind
    decreases |plan|
  {
    var init := plan[..|plan| - 1];
    if i < |init| {
      KindsAreLogged(rows, init, now, i);
    } else if init != [] {
      KindsAreLogged(rows, init, now, 0);
    }
  }

  lemma ApplyingMeans(s: System, t: System, id: nat)
    requires PlansGood(s) && Applies(s, t, id)
    ensures AppliedNow(s, t, id)
  {
    var now: Time :| NextStep(s, t, Apply(id, now));
    var plan := s.plans[id];
    assert PlanHolds(s, plan);
    CommitCommits(s, plan.changes, now, plan.reversible, plan.undoOf);
    forall i | 0 <= i < |plan.changes| ensures t.log[|s.log|].changes[i].changeKind == plan.changes[i].changeKind {
      KindsAreLogged(s.rows, plan.changes, now, i);
    }
  }

  lemma CommitKeepsPlans(s: System, changes: seq<Change>, now: string, reversible: bool, undoOf: Option<nat>)
    ensures Commit(s, changes, now, reversible, undoOf).Success? ==>
              Commit(s, changes, now, reversible, undoOf).value.plans == s.plans
  {
  }

  lemma StepKeepsSettled(s: System, t: System, id: nat)
    requires Next(s, t) && id in s.plans && !s.plans[id].state.Ready?
    ensures id in t.plans && t.plans[id] == s.plans[id]
  {
    var step :| NextStep(s, t, step);
    match step {
      case Draft(_, _) =>
      case DraftUndo(_, _) =>
      case Close(_, _) =>
      case Apply(other, now) =>
        CommitKeepsPlans(s, s.plans[other].changes, now, s.plans[other].reversible, s.plans[other].undoOf);
      case RestoreDeleted(_, _, _, _) =>
      case Moderate(_, _) =>
      case ModerateWithVerdict(changes, _, now) =>
        CommitKeepsPlans(s, changes, now, false, None);
    }
  }

  /** A plan that is cancelled, expired or applied is that same plan in every later state.  Applying it
      is no step at all if it was cancelled or expired, and changes nothing if it was applied. */
  lemma {:induction false} SettledPlanStays(run: seq<System>, i: nat, j: nat, id: nat)
    requires Run(run) && i <= j < |run| && id in run[i].plans && !run[i].plans[id].state.Ready?
    ensures id in run[j].plans && run[j].plans[id] == run[i].plans[id]
    ensures forall t, now: Time | NextStep(run[j], t, Apply(id, now)) :: run[i].plans[id].state.Applied? && t == run[j]
    decreases j - i
  {
    if i < j {
      SettledPlanStays(run, i, j - 1, id);
      RunLinks(run, j - 1);
      StepKeepsSettled(run[j - 1], run[j], id);
    }
  }

  /** Every plan is applied at most once in a run, when it is ready: what it then holds is logged, and
      it is applied from there on. */
  lemma PlanAppliesAtMostOnce(run: seq<System>, a: nat, b: nat, id: nat)
    requires Run(run) && a < |run| - 1 && b < |run| - 1
    requires Applies(run[a], run[a + 1], id) && Applies(run[b], run[b + 1], id)
    ensures a == b && AppliedNow(run[a], run[a + 1], id)
  {
    RunKeepsInv(run, a);
    RunKeepsInv(run, b);
    ApplyingMeans(run[a], run[a + 1], id);
    ApplyingMeans(run[b], run[b + 1], id);
    if a < b {
      SettledPlanStays(run, a + 1, b, id);
    } else if b < a {
      SettledPlanStays(run, b + 1, a, id);
    }
  }

  // ---- undoing is final ----

  predicate CanBeUndone(log: seq<Operation>, o: nat) {
    o < |log| && log[o].reversible && log[o].changes != []
  }

  /** Only what can be undone is undone or has a plan for it, and such a plan cannot be undone. */
  ghost predicate UndoesRightly(s: System) {
    && (forall k | 0 <= k < |s.log| && s.log[k].undoOf.Some? :: CanBeUndone(s.log, s.log[k].undoOf.value))
    && (forall id | id in s.plans && s.plans[id].undoOf.Some? ::
          !s.plans[id].reversible && CanBeUndone(s.log, s.plans[id].undoOf.value))
  }

  lemma {:induction false} CanBeUndoneLater(log: seq<Operation>, longer: seq<Operation>, o: nat)
    requires |log| <= |longer| && longer[..|log|] == log && CanBeUndone(log, o)
    ensures CanBeUndone(longer, o)
  {
    assert longer[..|log|][o] == longer[o];
  }

  lemma {:induction false} LogStepUndoesRightly(s: System, t: System)
    requires UndoesRightly(s) && |t.log| == |s.log| + 1 && t.log[..|s.log|] == s.log
    requires t.log[|s.log|].undoOf.Some? ==> CanBeUndone(s.log, t.log[|s.log|].undoOf.value)
    requires forall id | id in t.plans :: id in s.plans
               && t.plans[id].undoOf == s.plans[id].undoOf && t.plans[id].reversible == s.plans[id].reversible
    ensures UndoesRightly(t)
  {
    forall k | 0 <= k < |t.log| && t.log[k].undoOf.Some? ensures CanBeUndone(t.log, t.log[k].undoOf.value) {
      if k < |s.log| {
        assert t.log[..|s.log|][k] == t.log[k];
      }
      CanBeUndoneLater(s.log, t.log, t.log[k].undoOf.value);
    }
    forall id | id in t.plans && t.plans[id].undoOf.Some? ensures CanBeUndone(t.log, t.plans[id].undoOf.value) {
      CanBeUndoneLater(s.log, t.log, s.plans[id].undoOf.value);
    }
  }

  lemma RestoreUndoesRightly(s: System, t: System, kind: Kind, resourceId: string, ifVersion: Option<int>, now: Time)
    requires UndoesRightly(s) && Restore(s, kind, resourceId, ifVersion, now) == Success(t)
    ensures UndoesRightly(t)
  {
    var o := LatestDelete(s.log, kind, resourceId).value;
    assert CanBeUndone(s.log, o);
    LogStepUndoesRightly(s, t);
  }

  lemma ApplyUndoesRightly(s: System, t: System, id: nat, now: Time)
    requires UndoesRightly(s) && ApplyPlan(s, id, now) == Success(t)
    ensures UndoesRightly(t)
  {
    if s.plans[id].state.Ready? {
      LogStepUndoesRightly(s, t);
    }
  }

  lemma StepUndoesRightly(s: System, t: System)
    requires UndoesRightly(s) && Next(s, t)
    ensures UndoesRightly(t)
  {
    var step :| NextStep(s, t, step);
    match step {
      case Draft(_, _) =>
      case DraftUndo(_, o) => assert CanBeUndone(s.log, o);
      case Close(_, _) =>
      case Apply(id, now) => ApplyUndoesRightly(s, t, id, now);
      case RestoreDeleted(kind, resourceId, ifVersion, now) =>
        RestoreUndoesRightly(s, t, kind, resourceId, ifVersion, now);
      case Moderate(_, _) => LogStepUndoesRightly(s, t);
      case ModerateWithVerdict(_, _, _) => LogStepUndoesRightly(s, t);
    }
  }

  /** In every reachable state: whatever was undone or restored, or is planned to be undone, is a
      reversible operation with changes, and no plan of an undo is reversible. */
  lemma {:induction false} RunUndoesRightly(run: seq<System>, j: nat)
    requires Run(run) && j < |run|
    ensures UndoesRightly(run[j])
  {
    if j > 0 {
      RunUndoesRightly(run, j - 1);
      RunLinks(run, j - 1);
      StepUndoesRightly(run[j - 1], run[j]);
    }
  }

  lemma {:induction false} IrreversibleIsFinal(s: System, o: nat, k: nat)
    requires UndoesRightly(s) && o < |s.log| && !s.log[o].reversible && k < |s.log|
    ensures DescribeUndo(s, o) == Failure(NotUndoable) && s.log[k].undoOf != Some(o)
  {
    assert !CanBeUndone(s.log, o);
  }

  lemma {:induction false} LoggedStays(run: seq<System>, i: nat, j: nat, o: nat)
    requires Run(run) && i <= j < |run| && o < |run[i].log|
    ensures o < |run[j].log| && run[j].log[o] == run[i].log[o]
  {
    RunEvolves(run, i, j);
    assert run[j].log[..|run[i].log|][o] == run[j].log[o];
  }

  /** What applying an undo plan logged is never undone or restored, and no plan to undo it is made. */
  lemma {:induction false} UndoIsNotUndone(run: seq<System>, a: nat, id: nat, j: nat, k: nat)
    requires Run(run) && a < j < |run| && Applies(run[a], run[a + 1], id)
    requires id in run[a].plans && run[a].plans[id].undoOf.Some?
    requires k < |run[j].log|
    ensures |run[a].log| < |run[j].log|
    ensures DescribeUndo(run[j], |run[a].log|) == Failure(NotUndoable)
    ensures run[j].log[k].undoOf != Some(|run[a].log|)
  {
    UndoIsLogged(run, a, id);
    LoggedStays(run, a + 1, j, |run[a].log|);
    RunUndoesRightly(run, j);
    IrreversibleIsFinal(run[j], |run[a].log|, k);
  }

  lemma {:induction false} UndoIsLogged(run: seq<System>, a: nat, id: nat)
    requires Run(run) && a + 1 < |run| && Applies(run[a], run[a + 1], id)
    requires id in run[a].plans && run[a].plans[id].undoOf.Some?
    ensures |run[a + 1].log| == |run[a].log| + 1 && !run[a + 1].log[|run[a].log|].reversible
  {
    RunKeepsInv(run, a);
    ApplyingMeans(run[a], run[a + 1], id);
    RunUndoesRightly(run, a);
  }

  // ---- which undo and which restore there is ----

  /** The plan reverses these records: row by row it expects what they left, and gives back what they found. */
  ghost predicate PlanReverses(plan: Plan, recorded: seq<Recorded>) {
    && |plan.changes| == |recorded|
    && forall i | 0 <= i < |recorded| ::
         && TargetOf(plan.changes[i]) == KeyOf(recorded[i])
         && plan.changes[i].before == recorded[i].after
         && plan.changes[i].after.Keys == recorded[i].before.Keys
         && forall c | c in recorded[i].before && Some(c) != VersionColumnOf(recorded[i].kind) ::
              plan.changes[i].after[c] == recorded[i].before[c]
  }

  lemma ReversedColumns(r: Recorded)
    requires GoodRecord(r)
    ensures var c := UndoOf(AsChange(r), "");
      && TargetOf(c) == KeyOf(r) && c.before == r.after && c.after.Keys == r.before.Keys
      && forall col | col in r.before && Some(col) != VersionColumnOf(r.kind) :: c.after[col] == r.before[col]
  {
    UndoIsGood(r, "");
    assert Materialize(r.after, "") == r.after;
    SpecFacts(r.kind);
    BumpIsWritten(AsChange(r), "");
    assert BumpColumn(r.after) == VersionColumnOf(r.kind);
  }

  lemma {:induction false} ReversalReverses(recorded: seq<Recorded>, plan: Plan)
    requires (forall n | 0 <= n < |recorded| :: GoodRecord(recorded[n])) && Distinct(AsPlan(recorded))
    requires Reverse(recorded) == Success(plan.changes)
    ensures PlanReverses(plan, recorded)
  {
    ReverseIsGood(recorded, "");
    forall i | 0 <= i < |recorded|
      ensures var c := plan.changes[i];
        && TargetOf(c) == KeyOf(recorded[i]) && c.before == recorded[i].after && c.after.Keys == recorded[i].before.Keys
        && forall col | col in recorded[i].before && Some(col) != VersionColumnOf(recorded[i].kind) ::
             c.after[col] == recorded[i].before[col]
    {
      ReversedColumns(recorded[i]);
      assert plan.changes[i] == UndoOf(AsChange(recorded[i]), "");
    }
  }

  ghost predicate NeverUndone(log: seq<Operation>, o: nat) {
    forall k | 0 <= k < |log| :: log[k].undoOf != Some(o)
  }

  lemma {:induction false} RecordsAreGood(run: seq<System>, j: nat, o: nat)
    requires Run(run) && j < |run| && o < |run[j].log|
    ensures Distinct(AsPlan(run[j].log[o].changes))
    ensures forall n | 0 <= n < |run[j].log[o].changes| :: GoodRecord(run[j].log[o].changes[n])
  {
    RunKeepsInv(run, j);
    forall n | 0 <= n < |run[j].log[o].changes| ensures GoodRecord(run[j].log[o].changes[n]) {
      assert RecordHolds(run[j].rows, run[j].log[o].changes[n]);
    }
  }

  /** In every reachable state exactly the reversible operations with changes that nothing has undone can
      be planned to be undone, and the plan is the reversal of their records, not reversible itself. */
  lemma {:induction false} UndoIsPlannedIff(run: seq<System>, j: nat, o: nat)
    requires Run(run) && j < |run| && o < |run[j].log|
    ensures DescribeUndo(run[j], o).Success? <==>
            run[j].log[o].reversible && run[j].log[o].changes != [] && NeverUndone(run[j].log, o)
    ensures DescribeUndo(run[j], o).Success? ==>
            var plan := DescribeUndo(run[j], o).value;
            plan.state.Ready? && !plan.reversible && plan.undoOf == Some(o) && PlanReverses(plan, run[j].log[o].changes)
  {
    RecordsAreGood(run, j, o);
    ReverseIsGood(run[j].log[o].changes, "");
    assert Undone(run[j].log, o) <==> !NeverUndone(run[j].log, o);
    if DescribeUndo(run[j], o).Success? {
      ReversalReverses(run[j].log[o].changes, DescribeUndo(run[j], o).value);
    }
  }

  lemma ReversalFindsVersion(rows: Store, r: Recorded, c: Change, version: int)
    requires GoodRecord(r) && ReverseOne(r) == Success(c) && Check(rows, c).Pass?
    requires NumberIn(FirstNonNull(c.before, Version, Revision)) == Some(version)
    ensures KeyOf(r) in rows && VersionColumnOf(r.kind).Some? && VersionAt(rows, KeyOf(r)) == version
  {
    UndoIsGood(r, "");
    assert Materialize(r.after, "") == r.after;
    SpecFacts(r.kind);
    CheckGives(rows, c);
    forall col | col in c.before ensures col in rows[KeyOf(r)] && rows[KeyOf(r)][col] == c.before[col] {
      assert col in Project(rows[KeyOf(r)], c.before.Keys);
    }
  }

  lemma {:induction false} PrimaryVersionIsOfOne(changes: seq<Change>, kind: Kind, resourceId: string) returns (i: nat)
    requires PrimaryVersion(changes, kind, resourceId).Some?
    ensures i < |changes| && changes[i].kind == kind && changes[i].resourceId == resourceId
    ensures NumberIn(FirstNonNull(changes[i].before, Version, Revision)) == PrimaryVersion(changes, kind, resourceId)
  {
    if changes[0].kind == kind && changes[0].resourceId == resourceId {
      i := 0;
    } else {
      var n := PrimaryVersionIsOfOne(changes[1..], kind, resourceId);
      i := n + 1;
    }
  }

  /** A change of the resource is among the records, and its row stands at the version. */
  ghost predicate ResourceStandsAt(rows: Store, recorded: seq<Recorded>, kind: Kind, resourceId: string, version: int) {
    exists i :: 0 <= i < |recorded| && recorded[i].kind == kind && recorded[i].resourceId == resourceId
      && VersionColumnOf(kind).Some? && VersionAt(rows, KeyOf(recorded[i])) == version
  }

  lemma {:induction false} ReversalSeesVersion(rows: Store, recorded: seq<Recorded>, changes: seq<Change>, kind: Kind,
                                               resourceId: string, version: int)
    requires (forall n | 0 <= n < |recorded| :: GoodRecord(recorded[n])) && Distinct(AsPlan(recorded))
    requires Reverse(recorded) == Success(changes) && FirstCheckError(rows, changes).Pass?
    requires PrimaryVersion(changes, kind, resourceId) == Some(version)
    ensures ResourceStandsAt(rows, recorded, kind, resourceId, version)
  {
    var i := PrimaryVersionIsOfOne(changes, kind, resourceId);
    ReverseIsGood(recorded, "");
    FirstCheckErrorPasses(rows, changes);
    UndoIsGood(recorded[i], "");
    assert changes[i] == UndoOf(AsChange(recorded[i]), "");
    ReversalFindsVersion(rows, recorded[i], changes[i], version);
  }

  /** A restore reverses the latest deletion of the resource, which nothing has undone and which can be
      undone again afterwards; where a version is asked for, the row stands at it. */
  lemma {:induction false} RestoreMeans(run: seq<System>, j: nat, t: System, kind: Kind, resourceId: string,
                                        ifVersion: Option<int>, now: Time)
    requires Run(run) && j < |run| && Restore(run[j], kind, resourceId, ifVersion, now) == Success(t)
    ensures var o := LatestDelete(run[j].log, kind, resourceId);
      && o.Some? && run[j].log[o.value].reversible && NeverUndone(run[j].log, o.value)
      && |t.log| == |run[j].log| + 1 && t.log[..|run[j].log|] == run[j].log && t.plans == run[j].plans
      && t.log[|run[j].log|].reversible && t.log[|run[j].log|].undoOf == o
      && Reverses(run[j].log[o.value].changes, t.log[|run[j].log|].changes)
      && (ifVersion.Some? ==>
            ResourceStandsAt(run[j].rows, run[j].log[o.value].changes, kind, resourceId, ifVersion.value))
  {
    var s := run[j];
    var o := LatestDelete(s.log, kind, resourceId).value;
    var recorded := s.log[o].changes;
    RecordsAreGood(run, j, o);
    ReverseIsGood(recorded, "");
    var changes := Reverse(recorded).value;
    CommitCommits(s, changes, now, true, Some(o));
    CommittedReversal(s.rows, t.rows, recorded, changes, t.log[|s.log|].changes);
    assert Undone(s.log, o) <==> !NeverUndone(s.log, o);
    if ifVersion.Some? {
      ReversalSeesVersion(s.rows, recorded, changes, kind, resourceId, ifVersion.value);
    }
  }

  /** A change of a versioned row is recorded with the version the row stood at and the next. */
  lemma VersionsAreRecorded(rows: Store, c: Change, now: string)
    requires Good(c) && VersionColumnOf(c.kind).Some? && ApplyOne(rows, c, now).Success?
    ensures var (out, r) := ApplyOne(rows, c, now).value;
      && r.versionBefore == Some(VersionAt(rows, TargetOf(c)))
      && r.versionAfter == Some(VersionAt(rows, TargetOf(c)) + 1) == Some(VersionAt(out, TargetOf(c)))
  {
    StampedWrite(rows, c, now);
    CheckGives(rows, c);
    SpecFacts(c.kind);
    var col := VersionColumnOf(c.kind).value;
    assert col in Project(rows[TargetOf(c)], c.before.Keys);
    assert Materialize(c.after, now)[col] == c.after[col];
    assert Materialize(c.after, now).Keys == c.after.Keys;
  }
}
