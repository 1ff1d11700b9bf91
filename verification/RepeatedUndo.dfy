/** Why the once-only undo needs a version: on rows that carry none, one operation can be undone
    twice, by two plans drafted before either was applied (undo-workflows.ts). */
module RepeatedUndo {
  import opened Outcomes
  import opened MutationStore
  import opened MutationLaws
  import opened Undo
  import opened StateChanges
  import opened OperationLog
  import opened OperationHistory

  /** Two changes of one column of one row of a kind without version or time stamp, each taking
      back the other. */
  ghost predicate Toggle(c: Change, u: Change, k: Key) {
    && c.kind == EvidenceContext && c.resourceId != "" && c.selector == [c.resourceId] && k == TargetOf(c)
    && c.before.Keys == {State} && c.after.Keys == {State} && NOW !in c.before.Values && NOW !in c.after.Values
    && u == Change(c.resourceId, c.kind, "undo_" + c.changeKind, c.selector, c.after, c.before)
  }

  lemma ToggleIsGood(c: Change, u: Change, k: Key)
    requires Toggle(c, u, k)
    ensures Good(c) && Good(u) && TargetOf(u) == k && VersionColumnOf(c.kind).None?
    ensures c.before != map[] && c.after != map[]
  {
    assert State in c.before && State in c.after;
  }

  function Logged(c: Change): Recorded {
    Recorded(c.resourceId, c.kind, c.changeKind, None, None, c.before, c.after)
  }

  /** One such change, on a database of just that row. */
  lemma ToggleCommits(sys: System, c: Change, now: Time, reversible: bool, undoOf: Option<nat>)
    requires Good(c) && c.kind == EvidenceContext && c.selector == [c.resourceId] && c.resourceId != ""
    requires c.before.Keys == {State} && c.after.Keys == {State} && NOW !in c.after.Values
    requires sys.rows == map[TargetOf(c) := c.before]
    ensures Commit(sys, [c], now, reversible, undoOf) ==
            Success(sys.(rows := map[TargetOf(c) := c.after],
                         log := sys.log + [Operation([Logged(c)], reversible, undoOf)]))
  {
    assert Project(c.before, c.before.Keys) == c.before;
    assert Materialize(c.after, now) == c.after;
    assert WrittenRow(c.before, c, now) == c.after;
    assert Check(sys.rows, c).Pass? && CheckWrite(c).Pass?;
    FirstCheckErrorPasses(sys.rows, [c]);
    ApplySingle(sys.rows, c, now);
    assert sys.rows[TargetOf(c) := c.after] == map[TargetOf(c) := c.after];
  }

  lemma ApplySingle(rows: Store, c: Change, now: Time)
    requires ApplyOne(rows, c, now).Success?
    ensures ApplyAll(rows, [c], now) == Success((ApplyOne(rows, c, now).value.0, [ApplyOne(rows, c, now).value.1]))
  {
    var plan := [c];
    assert plan[..|plan| - 1] == [];
    var (out, r) := ApplyOne(rows, c, now).value;
    assert [] + [r] == [r];
  }

  lemma ToggleReverses(c: Change, u: Change, k: Key, recorded: seq<Recorded>)
    requires Toggle(c, u, k) && recorded == [Logged(c)]
    ensures Reverse(recorded) == Success([u])
  {
    assert recorded[1..] == [];
    assert BumpColumn(c.after).None?;
    assert ReverseOne(recorded[0]) == Success(u);
    assert [u] + [] == [u];
  }

  lemma DraftStep(s: System, t: System, id: nat, plan: Plan)
    requires id !in s.plans && plan.state.Ready? && plan.undoOf.None? && Fresh(s.rows, plan.changes)
    requires t == s.(plans := s.plans[id := plan])
    ensures Next(s, t)
  {
    assert NextStep(s, t, Draft(id, plan));
  }

  lemma DraftUndoStep(s: System, t: System, id: nat, o: nat)
    requires id !in s.plans && o < |s.log| && DescribeUndo(s, o).Success?
    requires t == s.(plans := s.plans[id := DescribeUndo(s, o).value])
    ensures Next(s, t)
  {
    assert NextStep(s, t, DraftUndo(id, o));
  }

  lemma ApplyStep(s: System, t: System, id: nat, now: Time)
    requires ApplyPlan(s, id, now) == Success(t)
    ensures Next(s, t)
  {
    assert NextStep(s, t, Apply(id, now));
  }

  /** Applying a drafted plan of one such change. */
  lemma ToggleApplies(s: System, t: System, id: nat, p: Plan, c: Change, now: Time)
    requires Good(c) && c.kind == EvidenceContext && c.selector == [c.resourceId] && c.resourceId != ""
    requires c.before.Keys == {State} && c.after.Keys == {State} && NOW !in c.after.Values
    requires s.rows == map[TargetOf(c) := c.before] && id in s.plans && s.plans[id] == p
    requires p.state == Ready && p.changes == [c]
    requires t == System(map[TargetOf(c) := c.after], s.log + [Operation([Logged(c)], p.reversible, p.undoOf)],
                         s.plans[id := p.(state := Applied)])
    ensures Next(s, t)
  {
    ToggleCommits(s, c, now, p.reversible, p.undoOf);
    ApplyStep(s, t, id, now);
  }

  /** The change is made, and its undo drafted twice. */
  lemma {:induction false} MadeAndDrafted(c: Change, u: Change, k: Key, p: Plan, q: Plan, now: Time) returns (run: seq<System>)
    requires Toggle(c, u, k) && p == Plan(Ready, [c], true, None) && q == Plan(Ready, [u], false, Some(0))
    ensures Run(run) && |run| == 5
    ensures run[4] == System(map[k := c.after], [Operation([Logged(c)], true, None)],
                             map[0 := p.(state := Applied), 1 := q, 2 := q])
  {
    ToggleIsGood(c, u, k);
    var op := Operation([Logged(c)], true, None);
    var s0 := System(map[k := c.before], [], map[]);
    var s1 := s0.(plans := map[0 := p]);
    DraftStep(s0, s1, 0, p);
    var s2 := System(map[k := c.after], [op], map[0 := p.(state := Applied)]);
    assert [] + [op] == [op] && s1.plans[0 := p.(state := Applied)] == s2.plans;
    ToggleApplies(s1, s2, 0, p, c, now);
    ToggleReverses(c, u, k, op.changes);
    assert !Undone(s2.log, 0);
    var s3 := s2.(plans := s2.plans[1 := q]);
    DraftUndoStep(s2, s3, 1, 0);
    var s4 := s3.(plans := s3.plans[2 := q]);
    DraftUndoStep(s3, s4, 2, 0);
    run := [s0, s1, s2, s3, s4];
    forall i | 0 <= i < 4 ensures Linked(run, i) {
      assert i == 0 || i == 1 || i == 2 || i == 3;
    }
  }

  /** Undone, made again by a plan of its own, and undone a second time by the plan left over. */
  lemma {:induction false} UndoneRedoneUndone(s4: System, c: Change, u: Change, k: Key, p: Plan, q: Plan, now: Time)
    returns (more: seq<System>)
    requires Toggle(c, u, k) && p == Plan(Ready, [c], true, None) && q == Plan(Ready, [u], false, Some(0))
    requires s4 == System(map[k := c.after], [Operation([Logged(c)], true, None)],
                          map[0 := p.(state := Applied), 1 := q, 2 := q])
    ensures |more| == 4 && Next(s4, more[0]) && Next(more[0], more[1]) && Next(more[1], more[2]) && Next(more[2], more[3])
    ensures |more[3].log| == 4 && more[3].log[0] == s4.log[0]
    ensures more[3].log[1].undoOf == Some(0) && more[3].log[3].undoOf == Some(0)
  {
    ToggleIsGood(c, u, k);
    var op, undo := Operation([Logged(c)], true, None), Operation([Logged(u)], false, Some(0));
    var s5 := System(map[k := c.before], s4.log + [undo], s4.plans[1 := q.(state := Applied)]);
    ToggleApplies(s4, s5, 1, q, u, now);
    var s6 := s5.(plans := s5.plans[3 := p]);
    DraftStep(s5, s6, 3, p);
    var s7 := System(map[k := c.after], s6.log + [op], s6.plans[3 := p.(state := Applied)]);
    ToggleApplies(s6, s7, 3, p, c, now);
    var s8 := System(map[k := c.before], s7.log + [undo], s7.plans[2 := q.(state := Applied)]);
    ToggleApplies(s7, s8, 2, q, u, now);
    more := [s5, s6, s7, s8];
  }

  /** A run in which one operation is undone twice. */
  lemma {:induction false} UnversionedUndoneTwice(c: Change, u: Change, k: Key, now: Time) returns (run: seq<System>)
    requires Toggle(c, u, k)
    ensures Run(run) && |run| == 9 && |run[8].log| == 4 && !HasVersionedChange(run[8].log[0])
    ensures run[8].log[1].undoOf == Some(0) && run[8].log[3].undoOf == Some(0)
  {
    var p, q := Plan(Ready, [c], true, None), Plan(Ready, [u], false, Some(0));
    var first := MadeAndDrafted(c, u, k, p, q, now);
    var more := UndoneRedoneUndone(first[4], c, u, k, p, q, now);
    var run5 := OneMore(first, more[0]);
    var run6 := OneMore(run5, more[1]);
    var run7 := OneMore(run6, more[2]);
    run := OneMore(run7, more[3]);
    NoVersionHere(run[8].log[0], c);
  }

  lemma NoVersionHere(op: Operation, c: Change)
    requires op.changes == [Logged(c)] && c.kind == EvidenceContext
    ensures !HasVersionedChange(op)
  {
    assert VersionColumnOf(c.kind).None?;
  }

  lemma {:induction false} OneMore(run: seq<System>, t: System) returns (longer: seq<System>)
    requires Run(run) && Next(run[|run| - 1], t)
    ensures Run(longer) && |longer| == |run| + 1 && longer[|run|] == t
  {
    longer := run + [t];
    forall i | 0 <= i < |longer| - 1 ensures Linked(longer, i) {
      assert i < |run| - 1 ==> Linked(run, i);
    }
  }
}
