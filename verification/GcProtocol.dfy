/** Garbage collection as a protocol over files and database that may crash between any two
    steps (gc.ts): a receipt is written, files are renamed into staging, the rows and a receipt
    row are committed, staging is removed; recovery repairs what a crash leaves behind. */
module GcProtocol {
  import opened Outcomes

  datatype RowId = BlobRow(sha256: string) | EmbeddingRow(id: string)

  /** What a plan collects: the paths of its candidates in order, and its database rows. */
  datatype GcPlan = GcPlan(files: seq<string>, doomed: set<RowId>)

  /** A staging directory: its receipt.json, once written, and the files moved into it. */
  datatype Staging = Staging(receipt: Option<seq<string>>, files: map<string, string>)

  datatype Pc =
    | Down                     // not running: crashed, failed or finished
    | Created                  // the staging directory exists, the receipt does not
    | Moving(done: nat)        // so many files are staged
    | PuttingBack(left: nat)   // a failure: so many staged files are still to be put back
    | Cleaning                 // removing the staging directory after Apply
    | Repairing(done: nat)     // recovery has looked at so many files of the receipt
    | Removing                 // removing the staging directory after recovery
    | Recovered                // a recovery has run to its end

  /** `committed` says the receipt row is in the database; `rows` are its other rows. */
  datatype State = State(live: map<string, string>, staging: Option<Staging>, committed: bool, rows: set<RowId>, pc: Pc)

  datatype Action =
    | MakeDirectory | WriteReceipt | StageFile | StepFails | PutBackFile | PutBackEnds | PutBackFails | Commit
    | RemoveReceipt | RemoveFile(path: string) | RemoveEnds
    | Crash | BeginRecovery | RepairFile | RepairFails | RepairEnds

  function Unstaged(s: State, path: string, pc: Pc): State
    requires s.staging.Some? && path in s.staging.value.files
  {
    s.(live := s.live[path := s.staging.value.files[path]],
       staging := Some(s.staging.value.(files := s.staging.value.files - {path})),
       pc := pc)
  }

  predicate CanMoveBack(s: State, path: string) {
    s.staging.Some? && path in s.staging.value.files && path !in s.live
  }

  /** `rename(staged, original)` when only the staged copy exists, and nothing otherwise. */
  function MovedBack(s: State, path: string, pc: Pc): State {
    if CanMoveBack(s, path) then Unstaged(s, path, pc) else s.(pc := pc)
  }

  predicate Step(plan: GcPlan, s: State, t: State, a: Action) {
    match a
    case MakeDirectory =>
      // Apply recovers first, goes on even if that failed, and checks that every candidate is still
      // there; mkdir fails on a directory recovery had to leave, which is then removed
      && (s.pc.Recovered? || s.pc.Down?) && !s.committed && (forall p | p in plan.files :: p in s.live)
      && t == if s.staging.None? then s.(staging := Some(Staging(None, map[])), pc := Created) else s.(pc := Cleaning)
    case WriteReceipt =>
      && s.pc.Created? && s.staging.Some?
      && t == s.(staging := Some(s.staging.value.(receipt := Some(plan.files))), pc := Moving(0))
    case StageFile =>
      && s.pc.Moving? && s.staging.Some? && s.pc.done < |plan.files| && plan.files[s.pc.done] in s.live
      && var path := plan.files[s.pc.done];
      t == s.(live := s.live - {path},
              staging := Some(s.staging.value.(files := s.staging.value.files[path := s.live[path]])),
              pc := Moving(s.pc.done + 1))
    case StepFails =>
      && (s.pc.Created? || s.pc.Moving?)
      && t == s.(pc := PuttingBack(if s.pc.Moving? then s.pc.done else 0))
    case PutBackFile =>
      && s.pc.PuttingBack? && 0 < s.pc.left <= |plan.files|
      && t == MovedBack(s, plan.files[s.pc.left - 1], PuttingBack(s.pc.left - 1))
    case PutBackEnds =>
      s.pc == PuttingBack(0) && t == s.(pc := Cleaning)
    case PutBackFails =>
      s.pc.PuttingBack? && t == s.(pc := Down)
    case Commit =>
      && s.pc == Moving(|plan.files|)
      && t == s.(committed := true, rows := s.rows - plan.doomed, pc := Cleaning)
    case RemoveReceipt =>
      && (s.pc.Cleaning? || s.pc.Removing?) && s.staging.Some?
      && t == s.(staging := Some(s.staging.value.(receipt := None)))
    case RemoveFile(path) =>
      && (s.pc.Cleaning? || s.pc.Removing?) && s.staging.Some?
      && t == s.(staging := Some(s.staging.value.(files := s.staging.value.files - {path})))
    case RemoveEnds =>
      && (s.pc.Cleaning? || s.pc.Removing?)
      && (s.staging.Some? ==> s.staging.value == Staging(None, map[]))
      && t == s.(staging := None, pc := if s.pc.Removing? then Recovered else Down)
    case Crash =>
      t == s.(pc := Down)
    case BeginRecovery =>
      && (s.pc.Down? || s.pc.Recovered?)
      && t == s.(pc := if s.staging.None? || s.staging.value.receipt.None? then Recovered
                       else if s.committed then Removing
                       else Repairing(0))
    case RepairFile =>
      && s.pc.Repairing? && s.staging.Some? && s.staging.value.receipt.Some?
      && s.pc.done < |s.staging.value.receipt.value|
      && t == MovedBack(s, s.staging.value.receipt.value[s.pc.done], Repairing(s.pc.done + 1))
    case RepairFails =>
      s.pc.Repairing? && t == s.(pc := Down)
    case RepairEnds =>
      && s.pc.Repairing? && s.staging.Some? && s.staging.value.receipt.Some?
      && s.pc.done == |s.staging.value.receipt.value|
      && t == s.(pc := Removing)
  }

  ghost predicate Next(plan: GcPlan, s: State, t: State) {
    exists a :: Step(plan, s, t, a)
  }

  /** Any number of attempts to apply one plan, crashes, and recoveries, in any order. */
  ghost predicate Run(plan: GcPlan, run: seq<State>) {
    && run != []
    && run[0].staging.None? && !run[0].committed && run[0].pc.Recovered?
    && (forall p | p in plan.files :: p in run[0].live)
    && forall i | 0 <= i < |run| - 1 :: Linked(plan, run, i)
  }

  ghost predicate Linked(plan: GcPlan, run: seq<State>, i: nat)
    requires i < |run| - 1
  {
    Next(plan, run[i], run[i + 1])
  }

  lemma RunGoesOn(plan: GcPlan, run: seq<State>, next: State, a: Action)
    requires Run(plan, run) && Step(plan, run[|run| - 1], next, a)
    ensures Run(plan, run + [next])
  {
    var longer := run + [next];
    forall i | 0 <= i < |longer| - 1 ensures Linked(plan, longer, i) {
      if i < |run| - 1 {
        assert Linked(plan, run, i);
      }
    }
  }

  function Listed(files: seq<string>): set<string> {
    set p | p in files
  }

  predicate Distinct(files: seq<string>) {
    forall i, j | 0 <= i < j < |files| :: files[i] != files[j]
  }

  function StagedFiles(s: State): map<string, string> {
    if s.staging.Some? then s.staging.value.files else map[]
  }

  // ---- what every step keeps ----

  /** Before the commit, every file is live or staged and never both; its content is kept. */
  predicate Conserved(first: State, s: State) {
    && s.live.Keys !! StagedFiles(s).Keys
    && s.live + StagedFiles(s) == first.live
    && s.rows == first.rows
  }

  predicate ReceiptKnown(plan: GcPlan, s: State) {
    && StagedFiles(s).Keys <= Listed(plan.files)
    && (s.staging.Some? && s.staging.value.receipt.Some? ==> s.staging.value.receipt.value == plan.files)
    && (s.staging.Some? && s.staging.value.receipt.None? ==> StagedFiles(s) == map[])
  }

  /** Where the steps stand: what is staged at each point of an uncommitted attempt. */
  predicate AtPc(plan: GcPlan, s: State) {
    match s.pc
    case Down => true
    case Recovered => StagedFiles(s) == map[]
    case Created => StagedFiles(s) == map[] && s.staging.Some?
    case Moving(n) =>
      && n <= |plan.files| && s.staging.Some? && s.staging.value.receipt.Some?
      && StagedFiles(s).Keys == Listed(plan.files[..n]) && Distinct(plan.files[..n])
    case PuttingBack(n) =>
      && n <= |plan.files| && StagedFiles(s).Keys == Listed(plan.files[..n]) && Distinct(plan.files[..n])
    case Cleaning => StagedFiles(s) == map[]
    case Repairing(n) => n <= |plan.files| && StagedFiles(s).Keys !! Listed(plan.files[..n])
    case Removing => StagedFiles(s) == map[]
  }

  /** After the commit the rows and the original files are gone for good. */
  predicate Collected(plan: GcPlan, first: State, s: State) {
    && s.rows == first.rows - plan.doomed
    && s.live == first.live - Listed(plan.files)
    && !s.pc.Created? && !s.pc.Moving? && !s.pc.PuttingBack? && !s.pc.Repairing?
  }

  predicate Inv(plan: GcPlan, first: State, s: State) {
    if s.committed then Collected(plan, first, s)
    else Conserved(first, s) && ReceiptKnown(plan, s) && AtPc(plan, s)
  }

  lemma MovingBackConserves(first: State, s: State, path: string, pc: Pc)
    requires Conserved(first, s)
    ensures Conserved(first, MovedBack(s, path, pc))
    ensures StagedFiles(MovedBack(s, path, pc)).Keys == StagedFiles(s).Keys - {path}
  {
    if CanMoveBack(s, path) {
      var t := Unstaged(s, path, pc);
      assert t.live + StagedFiles(t) == s.live + StagedFiles(s);
    } else {
      assert path !in StagedFiles(s);
    }
  }

  lemma ListedStep(files: seq<string>, n: nat)
    requires n < |files|
    ensures Listed(files[..n + 1]) == Listed(files[..n]) + {files[n]}
    ensures Distinct(files[..n + 1]) <==> Distinct(files[..n]) && files[n] !in Listed(files[..n])
  {
    assert files[..n + 1] == files[..n] + [files[n]];
  }

  lemma StagingKeepsInv(plan: GcPlan, first: State, s: State, t: State)
    requires Inv(plan, first, s) && Step(plan, s, t, StageFile)
    ensures Inv(plan, first, t)
  {
    if !s.committed {
      var n := s.pc.done;
      var path := plan.files[n];
      ListedStep(plan.files, n);
      assert path in Listed(plan.files);
      assert t.live + StagedFiles(t) == s.live + StagedFiles(s);
    }
  }

  lemma PuttingBackKeepsInv(plan: GcPlan, first: State, s: State, t: State)
    requires Inv(plan, first, s) && Step(plan, s, t, PutBackFile)
    ensures Inv(plan, first, t)
  {
    if !s.committed {
      ListedStep(plan.files, s.pc.left - 1);
      MovingBackConserves(first, s, plan.files[s.pc.left - 1], PuttingBack(s.pc.left - 1));
    }
  }

  lemma RepairKeepsInv(plan: GcPlan, first: State, s: State, t: State)
    requires Inv(plan, first, s) && Step(plan, s, t, RepairFile)
    ensures Inv(plan, first, t)
  {
    if !s.committed {
      ListedStep(plan.files, s.pc.done);
      MovingBackConserves(first, s, plan.files[s.pc.done], Repairing(s.pc.done + 1));
    }
  }

  lemma CommitKeepsInv(plan: GcPlan, first: State, s: State, t: State)
    requires Inv(plan, first, s) && Step(plan, s, t, Commit)
    ensures Inv(plan, first, t)
  {
    if !s.committed {
      assert plan.files[..|plan.files|] == plan.files;
      assert s.live == first.live - Listed(plan.files);
    }
  }

  lemma RepairEndKeepsInv(plan: GcPlan, first: State, s: State, t: State)
    requires Inv(plan, first, s) && Step(plan, s, t, RepairEnds)
    ensures Inv(plan, first, t)
  {
    if !s.committed {
      assert plan.files[..|plan.files|] == plan.files;
      assert StagedFiles(s).Keys == {};
    }
  }

  lemma StepKeepsInv(plan: GcPlan, first: State, s: State, t: State, a: Action)
    requires Inv(plan, first, s) && Step(plan, s, t, a)
    ensures Inv(plan, first, t)
    ensures s.committed ==> t.committed
  {
    match a {
      case StageFile => StagingKeepsInv(plan, first, s, t);
      case PutBackFile => PuttingBackKeepsInv(plan, first, s, t);
      case RepairFile => RepairKeepsInv(plan, first, s, t);
      case Commit => CommitKeepsInv(plan, first, s, t);
      case RepairEnds => RepairEndKeepsInv(plan, first, s, t);
      case RemoveFile(path) => assert !s.committed ==> StagedFiles(s) - {path} == map[];
      case _ =>
    }
  }

  lemma {:induction false} RunKeepsInv(plan: GcPlan, run: seq<State>, i: nat)
    requires Run(plan, run) && i < |run|
    ensures Inv(plan, run[0], run[i])
  {
    if i > 0 {
      RunKeepsInv(plan, run, i - 1);
      assert Linked(plan, run, i - 1);
      var a :| Step(plan, run[i - 1], run[i], a);
      StepKeepsInv(plan, run[0], run[i - 1], run[i], a);
    }
  }

  // ---- main results ----

  /** At every moment of every run, an uncommitted file is in exactly one place, unharmed. */
  lemma NoFileIsLost(plan: GcPlan, run: seq<State>, i: nat, path: string)
    requires Run(plan, run) && i < |run| && !run[i].committed && path in run[0].live
    ensures (path in run[i].live) != (path in StagedFiles(run[i]))
    ensures path in run[i].live ==> run[i].live[path] == run[0].live[path]
    ensures path in StagedFiles(run[i]) ==> StagedFiles(run[i])[path] == run[0].live[path] && path in plan.files
  {
    RunKeepsInv(plan, run, i);
    assert path in run[i].live + StagedFiles(run[i]);
  }

  /** Whenever a recovery has run to its end, after whatever crashes, either nothing was
      collected and every file and row is back, or the receipt row is there and every candidate
      row and original file is gone, and nothing else is. */
  lemma RecoveryIsAtomic(plan: GcPlan, run: seq<State>, i: nat)
    requires Run(plan, run) && i < |run| && run[i].pc.Recovered?
    ensures !run[i].committed ==> run[i].live == run[0].live && run[i].rows == run[0].rows
    ensures run[i].committed ==>
              && run[i].live == run[0].live - Listed(plan.files)
              && run[i].rows == run[0].rows - plan.doomed
  {
    RunKeepsInv(plan, run, i);
    if !run[i].committed {
      assert run[i].live + map[] == run[i].live;
    }
  }

  /** The receipt row, once there, stays. */
  lemma {:induction false} CommitIsFinal(plan: GcPlan, run: seq<State>, i: nat, j: nat)
    requires Run(plan, run) && i <= j < |run| && run[i].committed
    ensures run[j].committed
    decreases j - i
  {
    if i < j {
      CommitIsFinal(plan, run, i, j - 1);
      assert Linked(plan, run, j - 1);
      var a :| Step(plan, run[j - 1], run[j], a);
    }
  }

  // ---- recovery can always finish ----

  /** What recovery does when nothing fails. */
  predicate Recovers(a: Action) {
    a.BeginRecovery? || a.RepairFile? || a.RepairEnds? || a.RemoveReceipt? || a.RemoveFile? || a.RemoveEnds?
  }

  ghost predicate RecoveryStep(plan: GcPlan, s: State, t: State) {
    exists a :: Recovers(a) && Step(plan, s, t, a)
  }

  /** From `from` on, the run is recovery at work. */
  ghost predicate RecoversFrom(plan: GcPlan, run: seq<State>, from: nat) {
    forall i | from <= i < |run| - 1 :: RecoveryStep(plan, run[i], run[i + 1])
  }

  lemma {:induction false} OneMoreRecovers(plan: GcPlan, run: seq<State>, from: nat, t: State, a: Action)
    requires Run(plan, run) && RecoversFrom(plan, run, from) && Recovers(a) && Step(plan, run[|run| - 1], t, a)
    ensures Run(plan, run + [t]) && RecoversFrom(plan, run + [t], from) && run <= run + [t]
  {
    RunGoesOn(plan, run, t, a);
    var longer := run + [t];
    forall i | from <= i < |longer| - 1 ensures RecoveryStep(plan, longer[i], longer[i + 1]) {
      if i < |run| - 1 {
        assert RecoveryStep(plan, run[i], run[i + 1]);
      }
    }
  }

  function Entries(s: State): nat {
    if s.staging.None? then 0
    else |s.staging.value.files| + if s.staging.value.receipt.Some? then 1 else 0
  }

  lemma {:induction false} RemovalFinishes(plan: GcPlan, run: seq<State>, from: nat) returns (longer: seq<State>)
    requires Run(plan, run) && RecoversFrom(plan, run, from) && run[|run| - 1].pc.Removing?
    ensures Run(plan, longer) && RecoversFrom(plan, longer, from) && run <= longer && longer[|longer| - 1].pc.Recovered?
    decreases Entries(run[|run| - 1])
  {
    var s := run[|run| - 1];
    if Entries(s) == 0 {
      var t := s.(staging := None, pc := Recovered);
      OneMoreRecovers(plan, run, from, t, RemoveEnds);
      longer := run + [t];
    } else if s.staging.value.receipt.Some? {
      var t := s.(staging := Some(s.staging.value.(receipt := None)));
      OneMoreRecovers(plan, run, from, t, RemoveReceipt);
      longer := RemovalFinishes(plan, run + [t], from);
    } else {
      var path :| path in s.staging.value.files;
      var t := s.(staging := Some(s.staging.value.(files := s.staging.value.files - {path})));
      assert s.staging.value.files.Keys == t.staging.value.files.Keys + {path};
      OneMoreRecovers(plan, run, from, t, RemoveFile(path));
      longer := RemovalFinishes(plan, run + [t], from);
    }
  }

  lemma {:induction false} RepairFinishes(plan: GcPlan, run: seq<State>, from: nat) returns (longer: seq<State>)
    requires Run(plan, run) && RecoversFrom(plan, run, from) && run[|run| - 1].pc.Repairing?
    requires var s := run[|run| - 1];
      s.staging.Some? && s.staging.value.receipt.Some? && s.pc.done <= |s.staging.value.receipt.value|
    ensures Run(plan, longer) && RecoversFrom(plan, longer, from) && run <= longer && longer[|longer| - 1].pc.Recovered?
    decreases var s := run[|run| - 1]; |s.staging.value.receipt.value| - s.pc.done
  {
    var s := run[|run| - 1];
    var files := s.staging.value.receipt.value;
    if s.pc.done == |files| {
      var t := s.(pc := Removing);
      OneMoreRecovers(plan, run, from, t, RepairEnds);
      longer := RemovalFinishes(plan, run + [t], from);
    } else {
      var t := MovedBack(s, files[s.pc.done], Repairing(s.pc.done + 1));
      OneMoreRecovers(plan, run, from, t, RepairFile);
      longer := RepairFinishes(plan, run + [t], from);
    }
  }

  /** However a run stopped, crashed or failed at any point and any number of times: recovery steps
      alone, none of them failing, lead from there to the end of a recovery, with all back or all gone. */
  lemma {:induction false} RecoveryCanFinish(plan: GcPlan, run: seq<State>) returns (longer: seq<State>)
    requires Run(plan, run) && run[|run| - 1].pc.Down?
    ensures Run(plan, longer) && run < longer && RecoversFrom(plan, longer, |run| - 1)
    ensures var end := longer[|longer| - 1];
      && end.pc.Recovered? && end.committed == run[|run| - 1].committed
      && end.live == (if end.committed then run[0].live - Listed(plan.files) else run[0].live)
      && end.rows == (if end.committed then run[0].rows - plan.doomed else run[0].rows)
  {
    var s, from := run[|run| - 1], |run| - 1;
    var pc := if s.staging.None? || s.staging.value.receipt.None? then Recovered
              else if s.committed then Removing
              else Repairing(0);
    var t := s.(pc := pc);
    OneMoreRecovers(plan, run, from, t, BeginRecovery);
    var begun := run + [t];
    if pc.Removing? {
      longer := RemovalFinishes(plan, begun, from);
    } else if pc.Repairing? {
      longer := RepairFinishes(plan, begun, from);
    } else {
      longer := begun;
    }
    RecoveryKeepsVerdict(plan, longer, from, |longer| - 1);
    RecoveryIsAtomic(plan, longer, |longer| - 1);
  }

  lemma {:induction false} RecoveryKeepsVerdict(plan: GcPlan, run: seq<State>, from: nat, i: nat)
    requires RecoversFrom(plan, run, from) && from <= i < |run|
    ensures run[i].committed == run[from].committed
    decreases i
  {
    if from < i {
      RecoveryKeepsVerdict(plan, run, from, i - 1);
      assert RecoveryStep(plan, run[i - 1], run[i]);
    }
  }
}
