/** Plans, operations and their log: the Plan/Apply/Undo/Restore protocol as a transition
    system over the row store (apply-mutation.ts, undo-workflows.ts, restore-workflows.ts). */
module OperationLog {
  import opened Outcomes
  import opened MutationStore
  import opened MutationLaws
  import opened Undo
  import opened StateChanges

  datatype Operation = Operation(changes: seq<Recorded>, reversible: bool, undoOf: Option<nat>)

  datatype PlanState = Ready | Applied | Cancelled | Expired

  datatype Plan = Plan(state: PlanState, changes: seq<Change>, reversible: bool, undoOf: Option<nat>)

  /** A time of Apply, which is never the placeholder itself. */
  type Time = t: string | t != NOW.s witness ""

  /** An operation is known by its position in the log, which is in order of completion. */
  datatype System = System(rows: Store, log: seq<Operation>, plans: map<nat, Plan>)

  datatype Refusal = PlanNotFound | PlanNotReady | NotUndoable | AlreadyUndone | NotDeleted
                   | VersionMismatch | FileConflict | RenameFailed | ProcessDied | Mutation(error: Error)

  // ---- the one way rows are written ----

  /** verifyMutationChanges, then one transaction that applies the changes and logs them. */
  function Commit(sys: System, changes: seq<Change>, now: string, reversible: bool, undoOf: Option<nat>)
    : Result<System, Refusal>
  {
    match FirstCheckError(sys.rows, changes)
    case Fail(e) => Failure(Mutation(e))
    case Pass =>
      match ApplyAll(sys.rows, changes, now)
      case Failure(e) => Failure(Mutation(e))
      case Success((rows, recorded)) =>
        Success(sys.(rows := rows, log := sys.log + [Operation(recorded, reversible, undoOf)]))
  }

  // ---- the workflows ----

  function ApplyPlan(sys: System, id: nat, now: string): Result<System, Refusal> {
    if id !in sys.plans then Failure(PlanNotFound)
    else
      var plan := sys.plans[id];
      if plan.state.Applied? then Success(sys)
      else if !plan.state.Ready? then Failure(PlanNotReady)
      else
        match Commit(sys, plan.changes, now, plan.reversible, plan.undoOf)
        case Failure(e) => Failure(e)
        case Success(next) => Success(next.(plans := next.plans[id := plan.(state := Applied)]))
  }

  predicate Undone(log: seq<Operation>, o: nat) {
    exists j :: 0 <= j < |log| && log[j].undoOf == Some(o)
  }

  /** describeOperationUndo: a plan that reverses the recorded changes, itself not reversible. */
  function DescribeUndo(sys: System, o: nat): Result<Plan, Refusal>
    requires o < |sys.log|
  {
    if !sys.log[o].reversible || sys.log[o].changes == [] then Failure(NotUndoable)
    else if Undone(sys.log, o) then Failure(AlreadyUndone)
    else
      match Reverse(sys.log[o].changes)
      case Failure(e) => Failure(Mutation(e))
      case Success(changes) => Success(Plan(Ready, changes, false, Some(o)))
  }

  predicate DeletesResource(op: Operation, kind: Kind, resourceId: string) {
    exists i :: 0 <= i < |op.changes|
      && op.changes[i].kind == kind && op.changes[i].resourceId == resourceId
      && (op.changes[i].changeKind == "deleted" || (kind.Connection? && op.changes[i].changeKind == "detached"))
  }

  function LatestDelete(log: seq<Operation>, kind: Kind, resourceId: string): (o: Option<nat>)
    ensures o.Some? ==> o.value < |log| && DeletesResource(log[o.value], kind, resourceId)
    ensures forall j | (if o.Some? then o.value < j else 0 <= j) && j < |log| ::
              !DeletesResource(log[j], kind, resourceId)
  {
    if log == [] then None
    else if DeletesResource(log[|log| - 1], kind, resourceId) then Some(|log| - 1)
    else LatestDelete(log[..|log| - 1], kind, resourceId)
  }

  /** The version `--if-version` is compared with: that of the change reversing the deletion. */
  function PrimaryVersion(changes: seq<Change>, kind: Kind, resourceId: string): Option<int> {
    if changes == [] then None
    else if changes[0].kind == kind && changes[0].resourceId == resourceId then
      NumberIn(FirstNonNull(changes[0].before, Version, Revision))
    else PrimaryVersion(changes[1..], kind, resourceId)
  }

  function Restore(sys: System, kind: Kind, resourceId: string, ifVersion: Option<int>, now: string)
    : Result<System, Refusal>
  {
    match LatestDelete(sys.log, kind, resourceId)
    case None => Failure(NotDeleted)
    case Some(o) =>
      if !sys.log[o].reversible then Failure(NotUndoable)
      else if Undone(sys.log, o) then Failure(AlreadyUndone)
      else
        match Reverse(sys.log[o].changes)
        case Failure(e) => Failure(Mutation(e))
        case Success(changes) =>
          if ifVersion.Some? && PrimaryVersion(changes, kind, resourceId) != ifVersion then Failure(VersionMismatch)
          else Commit(sys, changes, now, true, Some(o))
  }

  // ---- steps and runs ----

  /** What every planner guarantees of the changes it makes from the current rows. */
  ghost predicate Fresh(rows: Store, changes: seq<Change>) {
    && Distinct(changes)
    && forall i | 0 <= i < |changes| ::
         && Good(changes[i])
         && (VersionColumnOf(changes[i].kind).Some? ==> WrittenVersion(changes[i]) == VersionAt(rows, TargetOf(changes[i])) + 1)
  }

  /** What recalculateClaimConfidence makes of a claim's evidence and conflicts, and the verdict
      that called for it. */
  datatype Verdict = Verdict(claim: string, confirm: bool, disputed: bool, level: string, json: string)

  function ClaimKey(claim: string): Key {
    Key(Claim, [claim])
  }

  function VerdictStatus(v: Verdict): Value {
    Text(if v.confirm then "user_confirmed" else "rejected")
  }

  /** The CASE of the recalculation. */
  function CaseStatus(status: Value, disputed: bool): Value {
    if disputed && status != Text("rejected") && status != Text("user_confirmed") then Text("disputed")
    else if !disputed && status == Text("disputed") then Text("proposed")
    else status
  }

  predicate LiveRelationOf(rows: Store, claim: string, k: Key)
    requires k in rows
  {
    k.kind.Relation? && Lookup(rows[k], ClaimId) == Text(claim) && Lookup(rows[k], DeletedAt) == Null
  }

  /** Its two UPDATE statements: the claim, and the relations of the claim that are not deleted. */
  function Recalculated(rows: Store, v: Verdict, now: string): Store {
    map k | k in rows ::
      if k == ClaimKey(v.claim) then
        rows[k] + map[ConfidenceLevel := Text(v.level), ConfidenceJson := Json(v.json),
                      Status := CaseStatus(Lookup(rows[k], Status), v.disputed), UpdatedAt := Text(now)]
      else if LiveRelationOf(rows, v.claim, k) then
        rows[k] + map[ConfidenceLevel := Text(v.level), ConfidenceJson := Json(v.json), UpdatedAt := Text(now)]
      else rows[k]
  }

  /** The claim's own change comes first, if its state is not the one asked for already. */
  predicate PlansVerdict(rows: Store, changes: seq<Change>, v: Verdict) {
    var k := ClaimKey(v.claim);
    && k in rows && Status in rows[k]
    && match StateChange(Claim, v.claim, [v.claim], Project(rows[k], {Status, Version}), Status, VerdictStatus(v),
                         "moderated", map[])
       case Some(c) => changes != [] && changes[0] == c
       case None => forall i | 0 <= i < |changes| :: TargetOf(changes[i]) != k
  }

  /** Moderating a claim: the changes, their log entry, and then the recalculation, unlogged. */
  function ModerateClaim(sys: System, changes: seq<Change>, v: Verdict, now: string): Result<System, Refusal> {
    match Commit(sys, changes, now, false, None)
    case Failure(e) => Failure(e)
    case Success(next) => Success(next.(rows := Recalculated(next.rows, v, now)))
  }

  datatype Step =
    | Draft(id: nat, plan: Plan)
    | DraftUndo(id: nat, o: nat)
    | Close(id: nat, state: PlanState)
    | Apply(id: nat, now: Time)
    | RestoreDeleted(kind: Kind, resourceId: string, ifVersion: Option<int>, now: Time)
    | Moderate(changes: seq<Change>, now: Time)
    | ModerateWithVerdict(changes: seq<Change>, verdict: Verdict, now: Time)

  ghost predicate NextStep(s: System, t: System, step: Step) {
    match step
    case Draft(id, plan) =>
      && id !in s.plans && plan.state.Ready? && plan.undoOf.None? && Fresh(s.rows, plan.changes)
      && t == s.(plans := s.plans[id := plan])
    case DraftUndo(id, o) =>
      && id !in s.plans && o < |s.log| && DescribeUndo(s, o).Success?
      && t == s.(plans := s.plans[id := DescribeUndo(s, o).value])
    case Close(id, state) =>
      && id in s.plans && s.plans[id].state.Ready? && (state.Cancelled? || state.Expired?)
      && t == s.(plans := s.plans[id := s.plans[id].(state := state)])
    case Apply(id, now) => ApplyPlan(s, id, now) == Success(t)
    case RestoreDeleted(kind, resourceId, ifVersion, now) => Restore(s, kind, resourceId, ifVersion, now) == Success(t)
    case Moderate(changes, now) => Fresh(s.rows, changes) && Commit(s, changes, now, false, None) == Success(t)
    case ModerateWithVerdict(changes, v, now) =>
      Fresh(s.rows, changes) && PlansVerdict(s.rows, changes, v) && ModerateClaim(s, changes, v, now) == Success(t)
  }

  ghost predicate Next(s: System, t: System) {
    exists step :: NextStep(s, t, step)
  }

  /** A run from a database with no operations yet.  A workflow that fails is no step: it
      changes nothing. */
  ghost predicate Run(run: seq<System>) {
    && run != []
    && run[0].log == [] && run[0].plans == map[]
    && forall i | 0 <= i < |run| - 1 :: Linked(run, i)
  }

  ghost predicate Linked(run: seq<System>, i: nat)
    requires i < |run| - 1
  {
    Next(run[i], run[i + 1])
  }

  // ---- versions ----

  function VersionAt(rows: Store, k: Key): int {
    match VersionColumnOf(k.kind)
    case None => 0
    case Some(col) => if k in rows && Lookup(rows[k], col).Num? then rows[k][col].n else 0
  }

  /** The version a stamped change leaves behind. */
  function WrittenVersion(c: Change): int {
    match VersionColumnOf(c.kind)
    case None => 0
    case Some(col) => if col in c.after && c.after[col].Num? then c.after[col].n else 0
  }

  lemma StampedWrite(rows: Store, c: Change, now: string)
    requires Good(c) && ApplyOne(rows, c, now).Success?
    ensures var out := ApplyOne(rows, c, now).value.0;
      && TargetOf(c) in rows && out.Keys == rows.Keys
      && (forall k | k in rows && k != TargetOf(c) :: out[k] == rows[k])
      && (VersionColumnOf(c.kind).Some? ==>
            VersionAt(rows, TargetOf(c)) == WrittenVersion(c) - 1 && VersionAt(out, TargetOf(c)) == WrittenVersion(c))
  {
    ApplyOneOutcome(rows, c, now);
    CheckGives(rows, c);
    SpecFacts(c.kind);
    match VersionColumnOf(c.kind) {
      case None =>
      case Some(col) =>
        assert col in Project(rows[TargetOf(c)], c.before.Keys);
        assert col in c.after;
    }
  }

  /** How often a plan writes a row. */
  function WriteCount(plan: seq<Change>, k: Key): nat {
    if plan == [] then 0
    else WriteCount(plan[..|plan| - 1], k) + if TargetOf(plan[|plan| - 1]) == k then 1 else 0
  }

  ghost predicate AllGood(plan: seq<Change>) {
    forall i | 0 <= i < |plan| :: Good(plan[i])
  }

  /** Every change of a versioned row moves its version up by exactly one, and nothing else
      moves it. */
  lemma {:induction false} VersionsCountWrites(rows: Store, plan: seq<Change>, now: string, k: Key)
    requires AllGood(plan) && ApplyAll(rows, plan, now).Success?
    requires VersionColumnOf(k.kind).Some?
    ensures ApplyAll(rows, plan, now).value.0.Keys == rows.Keys
    ensures VersionAt(ApplyAll(rows, plan, now).value.0, k) == VersionAt(rows, k) + WriteCount(plan, k)
    decreases |plan|
  {
    if plan != [] {
      var init, last := plan[..|plan| - 1], plan[|plan| - 1];
      VersionsCountWrites(rows, init, now, k);
      StampedWrite(ApplyAll(rows, init, now).value.0, last, now);
    }
  }

  lemma {:induction false} WriteCountPositive(plan: seq<Change>, k: Key)
    ensures WriteCount(plan, k) > 0 <==> Touches(plan, k)
    decreases |plan|
  {
    if plan != [] {
      var init, last := plan[..|plan| - 1], plan[|plan| - 1];
      assert plan == init + [last];
      WriteCountPositive(init, k);
      if Touches(plan, k) {
        var c :| c in plan && TargetOf(c) == k;
        assert c in init || c == last;
      }
      if Touches(init, k) {
        var c :| c in init && TargetOf(c) == k;
        assert c in plan;
      }
      assert last in plan;
    }
  }

  lemma PassingShowsVersion(rows: Store, c: Change)
    requires Good(c) && VersionColumnOf(c.kind).Some? && Check(rows, c).Pass?
    ensures VersionAt(rows, TargetOf(c)) == WrittenVersion(c) - 1
  {
    CheckGives(rows, c);
    assert VersionColumnOf(c.kind).value in Project(rows[TargetOf(c)], c.before.Keys);
  }

  /** A plan aimed at a version that has moved on is refused. */
  lemma StalePlanRefused(rows: Store, plan: seq<Change>, i: nat)
    requires i < |plan| && Good(plan[i]) && VersionColumnOf(plan[i].kind).Some?
    requires VersionAt(rows, TargetOf(plan[i])) >= WrittenVersion(plan[i])
    ensures FirstCheckError(rows, plan).Fail?
  {
    FirstCheckErrorPasses(rows, plan);
    assert !Check(rows, plan[i]).Pass? by {
      if Check(rows, plan[i]).Pass? {
        PassingShowsVersion(rows, plan[i]);
      }
    }
  }
}
