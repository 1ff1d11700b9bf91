/** The life of vector spaces: created, built, verified, activated, refreshed, replaced, deleted
    (vector-space-workflows.ts, vector-space-plans.ts). Each workflow is one step of a run. */
module VectorSpaces {
  import opened Outcomes
  import opened Ordering
  import opened VectorIndex

  datatype SpaceState = Building | Verifying | Ready | BuildFailed | Deprecated | Deleted

  datatype RunState = RunBuilding | RunVerifying | RunReady | RunFailed

  /** How many chunks a build saw, and the last of them. */
  datatype Watermark = Watermark(count: nat, last: Option<Key>)

  datatype BuildRun = BuildRun(watermark: Watermark, state: RunState)

  /** A space with its build runs in the order they were created, its index and cached queries. */
  datatype Space = Space(state: SpaceState, runs: seq<BuildRun>, index: Index, queries: set<string>,
                         coverage: nat, expected: nat, version: nat)

  datatype Knowledge = Knowledge(chunks: Chunks, spaces: map<string, Space>, active: Option<string>)

  datatype SpaceError = SpaceNotFound | BuildInvalid | VerifyInvalid | SentinelFailed | VerifyFailed | PlanConflict
                      | NotReady | SpaceActive | NotActive

  // ---- coverage ----

  function Sources(cs: Chunks): set<string> {
    set id | id in cs :: cs[id].sourceId
  }

  function Selected(cs: Chunks, source: Option<string>): set<string> {
    match source
    case None => Sources(cs)
    case Some(s) => {s}
  }

  function ListedIds(cs: Chunks): set<string> {
    set id | id in cs && Listed(cs, id, Sources(cs))
  }

  function CoveredRows(x: Index, cs: Chunks): set<Key> {
    set k | k in x.rows && x.rows[k] && Current(cs, k)
  }

  predicate CoverageComplete(x: Index, cs: Chunks) {
    && |ListedIds(cs)| > 0
    && |CoveredRows(x, cs)| == |ListedIds(cs)|
  }

  // ---- building ----

  datatype BuildEnd = Completes | GivesOut | Crashes

  /** activeChunks in its order. */
  predicate InOrder(ids: seq<string>, cs: Chunks, sources: set<string>) {
    Lists(ids, cs, sources) && forall i, j | 0 <= i < j < |ids| :: Less(ids[i], ids[j])
  }

  function WatermarkOf(ks: seq<Key>): Watermark {
    Watermark(|ks|, if ks == [] then None else Some(ks[|ks| - 1]))
  }

  predicate Buildable(s: Space) {
    s.state in {Building, BuildFailed, Verifying}
  }

  function RunFor(runs: seq<BuildRun>, w: Watermark): Option<nat> {
    RunFrom(runs, w, 0)
  }

  function RunFrom(runs: seq<BuildRun>, w: Watermark, i: nat): (r: Option<nat>)
    ensures r.Some? ==> i <= r.value < |runs| && runs[r.value].watermark == w
    ensures r.None? ==> forall j | i <= j < |runs| :: runs[j].watermark != w
    decreases |runs| - i
  {
    if i >= |runs| then None
    else if runs[i].watermark == w then Some(i)
    else RunFrom(runs, w, i + 1)
  }

  /** The build is skipped when a run with the same watermark is ready. */
  predicate Reusable(s: Space, w: Watermark) {
    RunFor(s.runs, w).Some? && s.runs[RunFor(s.runs, w).value].state == RunReady
  }

  function WithRun(runs: seq<BuildRun>, w: Watermark, state: RunState): seq<BuildRun> {
    match RunFor(runs, w)
    case Some(i) => runs[i := BuildRun(w, state)]
    case None => runs + [BuildRun(w, state)]
  }

  function Started(s: Space, ks: seq<Key>): Space {
    s.(state := Building, runs := WithRun(s.runs, WatermarkOf(ks), RunBuilding), expected := |ks|, version := s.version + 1)
  }

  /** A build that saved the first `n` keys before it ended as told. */
  function Built(s: Space, cs: Chunks, ks: seq<Key>, n: nat, end: BuildEnd): Space
    requires n <= |ks|
  {
    var saved := Started(s, ks).(index := SaveAll(s.index, ks[..n]));
    match end
    case Crashes => saved
    case GivesOut =>
      saved.(state := BuildFailed, runs := WithRun(saved.runs, WatermarkOf(ks), RunFailed), version := saved.version + 1)
    case Completes =>
      saved.(state := Verifying, runs := WithRun(saved.runs, WatermarkOf(ks), RunVerifying),
             coverage := |CoveredRows(saved.index, cs)|, expected := |ListedIds(cs)|, version := saved.version + 1)
  }

  /** The newest run takes the verdict, whichever run was built last. */
  function Judged(runs: seq<BuildRun>, passed: bool): seq<BuildRun> {
    if runs == [] then []
    else runs[|runs| - 1 := runs[|runs| - 1].(state := if passed then RunReady else RunFailed)]
  }

  predicate Passes(s: Space, cs: Chunks) {
    && CoverageComplete(s.index, cs)
    && |s.index.vectors| >= |CoveredRows(s.index, cs)|
  }

  function Verified(s: Space, cs: Chunks): Space {
    s.(state := if Passes(s, cs) then Ready else BuildFailed, runs := Judged(s.runs, Passes(s, cs)),
       coverage := |CoveredRows(s.index, cs)|, expected := |ListedIds(cs)|, version := s.version + 1)
  }

  // ---- steps ----

  datatype Step =
    | Create(id: string)
    | Build(id: string, ids: seq<string>, n: nat, end: BuildEnd)
    | Verify(id: string, sentinelHolds: bool)
    | Activate(id: string, version: nat)
    | Delete(id: string, version: nat)
    | Refresh(source: Option<string>, ids: seq<string>, n: nat, end: BuildEnd)
    | Query(text: string)
    | ChunksChange(chunks: Chunks)

  /** A build or refresh goes through the chunks listed at the time. */
  predicate StepOk(k: Knowledge, s: Step) {
    match s
    case Build(_, ids, n, end) =>
      InOrder(ids, k.chunks, Sources(k.chunks)) && n <= |ids| && (end.Completes? ==> n == |ids|)
    case Refresh(source, ids, n, end) =>
      InOrder(ids, k.chunks, Selected(k.chunks, source)) && n <= |ids| && (end.Completes? ==> n == |ids|)
    case _ => true
  }

  function Put(k: Knowledge, id: string, s: Space): Knowledge {
    k.(spaces := k.spaces[id := s])
  }

  function ActivationRefusal(k: Knowledge, id: string, version: nat): Outcome<SpaceError> {
    if id !in k.spaces then Fail(SpaceNotFound)
    else
      var s := k.spaces[id];
      if s.version != version then Fail(PlanConflict)
      else if s.state !in {Ready, Deprecated} || !CoverageComplete(s.index, k.chunks) then Fail(NotReady)
      else Pass
  }

  function Activated(k: Knowledge, id: string): Knowledge
    requires id in k.spaces
  {
    var replaced :=
      if k.active.Some? && k.active.value != id && k.active.value in k.spaces then
        var previous := k.spaces[k.active.value];
        k.spaces[k.active.value := previous.(state := Deprecated, version := previous.version + 1)]
      else k.spaces;
    Knowledge(k.chunks, replaced[id := k.spaces[id].(state := Ready, version := k.spaces[id].version + 1)], Some(id))
  }

  function DeletionRefusal(k: Knowledge, id: string, version: nat): Outcome<SpaceError> {
    if id !in k.spaces then Fail(SpaceNotFound)
    else if k.spaces[id].version != version then Fail(PlanConflict)
    else if k.active == Some(id) then Fail(SpaceActive)
    else Pass
  }

  function Emptied(s: Space): Space {
    s.(state := Deleted, index := Index(map[], {}), queries := {}, version := s.version + 1)
  }

  /** The coverage is counted again whether the saves went through or not, unless the process died. */
  function RefreshedSpace(s: Space, cs: Chunks, ids: seq<string>, n: nat, end: BuildEnd): Space
    requires n <= |ids| && forall i | 0 <= i < |ids| :: ids[i] in cs
  {
    var index := Refreshed(s.index, cs, ids, n);
    if end.Crashes? then s.(index := index)
    else s.(index := index, coverage := |CoveredRows(index, cs)|, expected := |ListedIds(cs)|, version := s.version + 1)
  }

  function Next(k: Knowledge, s: Step): Knowledge
    requires StepOk(k, s)
  {
    match s
    case Create(id) =>
      if id in k.spaces then k else Put(k, id, Space(Building, [], Index(map[], {}), {}, 0, 0, 1))
    case Build(id, ids, n, end) =>
      var ks := KeysOf(k.chunks, ids);
      if id !in k.spaces || !Buildable(k.spaces[id]) || Reusable(k.spaces[id], WatermarkOf(ks)) then k
      else Put(k, id, Built(k.spaces[id], k.chunks, ks, n, end))
    case Verify(id, holds) =>
      if id !in k.spaces || k.spaces[id].state !in {Verifying, Ready} || !holds then k
      else Put(k, id, Verified(k.spaces[id], k.chunks))
    case Activate(id, version) => if ActivationRefusal(k, id, version).Pass? then Activated(k, id) else k
    case Delete(id, version) =>
      if DeletionRefusal(k, id, version).Pass? then Put(k, id, Emptied(k.spaces[id])) else k
    case Refresh(_, ids, n, end) =>
      if k.active.None? || k.active.value !in k.spaces || k.spaces[k.active.value].state != Ready then k
      else Put(k, k.active.value, RefreshedSpace(k.spaces[k.active.value], k.chunks, ids, n, end))
    case Query(text) =>
      if k.active.None? || k.active.value !in k.spaces || k.spaces[k.active.value].state != Ready then k
      else Put(k, k.active.value, k.spaces[k.active.value].(queries := k.spaces[k.active.value].queries + {text}))
    case ChunksChange(chunks) => k.(chunks := chunks)
  }

  predicate RunOk(k: Knowledge, steps: seq<Step>)
    decreases |steps|
  {
    steps == [] || (StepOk(k, steps[0]) && RunOk(Next(k, steps[0]), steps[1..]))
  }

  function Run(k: Knowledge, steps: seq<Step>): Knowledge
    requires RunOk(k, steps)
    decreases |steps|
  {
    if steps == [] then k else Run(Next(k, steps[0]), steps[1..])
  }

  // ---- what every run keeps ----

  predicate Gone(s: Space) {
    s.state == Deleted ==> s.index == Index(map[], {}) && s.queries == {}
  }

  /** Only the newest run can be ready, and then the space has passed its verification. */
  predicate RunsAgree(s: Space) {
    forall i | 0 <= i < |s.runs| :: s.runs[i].state == RunReady ==> i == |s.runs| - 1 && !Buildable(s)
  }

  predicate SpaceOk(s: Space) {
    Gone(s) && RunsAgree(s) && Consistent(s.index)
  }

  predicate Sound(k: Knowledge) {
    && (k.active.Some? ==> k.active.value in k.spaces && k.spaces[k.active.value].state !in {Deprecated, Deleted})
    && (forall id | id in k.spaces :: SpaceOk(k.spaces[id]))
  }

  lemma BuiltIsOk(s: Space, cs: Chunks, ks: seq<Key>, n: nat, end: BuildEnd)
    requires SpaceOk(s) && Buildable(s) && n <= |ks|
    ensures SpaceOk(Built(s, cs, ks, n, end)) && Buildable(Built(s, cs, ks, n, end))
  {
    SavingKeepsConsistent(s.index, ks[..n]);
  }

  lemma VerifiedIsOk(s: Space, cs: Chunks)
    requires SpaceOk(s) && s.state in {Verifying, Ready}
    ensures SpaceOk(Verified(s, cs)) && Verified(s, cs).state in {Ready, BuildFailed}
  {
  }

  lemma PutKeepsSound(k: Knowledge, id: string, s: Space)
    requires Sound(k) && SpaceOk(s) && s.state !in {Deprecated, Deleted}
    ensures Sound(Put(k, id, s))
  {
  }

  lemma SettledIsOk(s: Space, state: SpaceState, version: nat)
    requires SpaceOk(s) && s.state != Deleted && state in {Ready, Deprecated}
    ensures SpaceOk(s.(state := state, version := version))
  {
  }

  lemma ActivationKeepsSound(k: Knowledge, id: string)
    requires Sound(k) && id in k.spaces && k.spaces[id].state in {Ready, Deprecated}
    ensures Sound(Activated(k, id))
  {
    SettledIsOk(k.spaces[id], Ready, k.spaces[id].version + 1);
    if k.active.Some? {
      var previous := k.spaces[k.active.value];
      SettledIsOk(previous, Deprecated, previous.version + 1);
    }
  }

  lemma StepKeepsSound(k: Knowledge, s: Step)
    requires Sound(k) && StepOk(k, s)
    ensures Sound(Next(k, s))
  {
    match s
    case Create(id) => PutKeepsSound(k, id, Space(Building, [], Index(map[], {}), {}, 0, 0, 1));
    case Build(id, ids, n, end) =>
      if id in k.spaces && Buildable(k.spaces[id]) {
        BuiltIsOk(k.spaces[id], k.chunks, KeysOf(k.chunks, ids), n, end);
        PutKeepsSound(k, id, Built(k.spaces[id], k.chunks, KeysOf(k.chunks, ids), n, end));
      }
    case Verify(id, _) =>
      if id in k.spaces && k.spaces[id].state in {Verifying, Ready} {
        VerifiedIsOk(k.spaces[id], k.chunks);
        PutKeepsSound(k, id, Verified(k.spaces[id], k.chunks));
      }
    case Activate(id, version) =>
      if ActivationRefusal(k, id, version).Pass? {
        ActivationKeepsSound(k, id);
      }
    case Delete(id, version) =>
    case Refresh(_, ids, n, end) =>
      if k.active.Some? {
        RefreshedIsConsistent(k.spaces[k.active.value].index, k.chunks, ids, n);
        PutKeepsSound(k, k.active.value, RefreshedSpace(k.spaces[k.active.value], k.chunks, ids, n, end));
      }
    case Query(text) =>
      if k.active.Some? {
        var space := k.spaces[k.active.value];
        PutKeepsSound(k, k.active.value, space.(queries := space.queries + {text}));
      }
    case ChunksChange(_) =>
  }

  lemma {:induction false} RunKeepsSound(k: Knowledge, steps: seq<Step>)
    requires Sound(k) && RunOk(k, steps)
    ensures Sound(Run(k, steps))
    decreases |steps|
  {
    if steps != [] {
      StepKeepsSound(k, steps[0]);
      RunKeepsSound(Next(k, steps[0]), steps[1..]);
    }
  }

  lemma BuildKeepsDeleted(k: Knowledge, s: Step, id: string)
    requires s.Build? && StepOk(k, s) && id in k.spaces && k.spaces[id].state == Deleted
    ensures id in Next(k, s).spaces && Next(k, s).spaces[id].state == Deleted
  {
    assert !Buildable(k.spaces[id]);
  }

  lemma PlanKeepsDeleted(k: Knowledge, s: Step, id: string)
    requires s.Activate? || s.Delete?
    requires Sound(k) && id in k.spaces && k.spaces[id].state == Deleted
    ensures id in Next(k, s).spaces && Next(k, s).spaces[id].state == Deleted
  {
    assert k.active != Some(id);
  }

  lemma ActiveStepKeepsDeleted(k: Knowledge, s: Step, id: string)
    requires s.Refresh? || s.Query?
    requires Sound(k) && StepOk(k, s) && id in k.spaces && k.spaces[id].state == Deleted
    ensures id in Next(k, s).spaces && Next(k, s).spaces[id].state == Deleted
  {
    assert k.active != Some(id);
  }

  lemma StepKeepsDeleted(k: Knowledge, s: Step, id: string)
    requires Sound(k) && StepOk(k, s) && id in k.spaces && k.spaces[id].state == Deleted
    ensures id in Next(k, s).spaces && Next(k, s).spaces[id].state == Deleted
  {
    if s.Build? {
      BuildKeepsDeleted(k, s, id);
    } else if s.Activate? || s.Delete? {
      PlanKeepsDeleted(k, s, id);
    } else if s.Refresh? || s.Query? {
      ActiveStepKeepsDeleted(k, s, id);
    }
  }

  /** Deleted is final: whatever happens, the space stays deleted, without a single embedding,
      vector or cached query. */
  lemma {:induction false} DeletedIsFinal(k: Knowledge, steps: seq<Step>, id: string)
    requires Sound(k) && RunOk(k, steps) && id in k.spaces && k.spaces[id].state == Deleted
    ensures var h := Run(k, steps);
      && id in h.spaces && h.spaces[id].state == Deleted && h.active != Some(id)
      && h.spaces[id].index == Index(map[], {}) && h.spaces[id].queries == {}
    decreases |steps|
  {
    if steps != [] {
      StepKeepsSound(k, steps[0]);
      StepKeepsDeleted(k, steps[0], id);
      DeletedIsFinal(Next(k, steps[0]), steps[1..], id);
    } else {
      assert SpaceOk(k.spaces[id]);
    }
  }

  const NOTHING := Knowledge(map[], map[], None)

  /** The active space is never deprecated or deleted, in any run from an empty workspace. */
  lemma ActiveSpaceIsAlive(steps: seq<Step>)
    requires RunOk(NOTHING, steps) && Run(NOTHING, steps).active.Some?
    ensures var k := Run(NOTHING, steps);
      k.active.value in k.spaces && k.spaces[k.active.value].state in {Building, Verifying, Ready, BuildFailed}
  {
    RunKeepsSound(NOTHING, steps);
  }

  /** The watermark leaves out all chunks but the last, yet a build is never skipped for it: the
      branch that reuses a ready run is not reached in any run. */
  lemma BuildsAreNeverSkipped(steps: seq<Step>, id: string, w: Watermark)
    requires RunOk(NOTHING, steps)
    requires var k := Run(NOTHING, steps); id in k.spaces && Buildable(k.spaces[id])
    ensures !Reusable(Run(NOTHING, steps).spaces[id], w)
  {
    RunKeepsSound(NOTHING, steps);
    assert SpaceOk(Run(NOTHING, steps).spaces[id]);
  }

  // ---- plans and versions ----

  /** Whatever shows of a space moves its version: without a new version only the index and the cached
      queries can have changed. */
  predicate Versioned(s: Space, t: Space) {
    && s.version <= t.version
    && (s.version == t.version ==>
          s.state == t.state && s.runs == t.runs && s.coverage == t.coverage && s.expected == t.expected)
  }

  lemma StepVersions(k: Knowledge, s: Step, id: string)
    requires StepOk(k, s) && id in k.spaces
    ensures id in Next(k, s).spaces && Versioned(k.spaces[id], Next(k, s).spaces[id])
  {
  }

  lemma {:induction false} RunVersions(k: Knowledge, steps: seq<Step>, id: string)
    requires RunOk(k, steps) && id in k.spaces
    ensures id in Run(k, steps).spaces && k.spaces[id].version <= Run(k, steps).spaces[id].version
    decreases |steps|
  {
    if steps != [] {
      StepVersions(k, steps[0], id);
      RunVersions(Next(k, steps[0]), steps[1..], id);
    }
  }

  /** A plan made for an earlier version of the space never activates or deletes it, in any later state. */
  lemma OutdatedPlanNeverApplies(k: Knowledge, steps: seq<Step>, id: string, version: nat)
    requires RunOk(k, steps) && id in k.spaces && version < k.spaces[id].version
    ensures var h := Run(k, steps);
      && Next(h, Activate(id, version)) == h && Next(h, Delete(id, version)) == h
      && ActivationRefusal(h, id, version) == Fail(PlanConflict) && DeletionRefusal(h, id, version) == Fail(PlanConflict)
  {
    RunVersions(k, steps, id);
  }

  /** So a plan is applied at most once. */
  lemma PlanAppliesOnce(k: Knowledge, plan: Step, steps: seq<Step>)
    requires (plan.Activate? || plan.Delete?) && Next(k, plan) != k && RunOk(Next(k, plan), steps)
    ensures Next(Run(Next(k, plan), steps), plan) == Run(Next(k, plan), steps)
  {
    var h := Next(k, plan);
    assert plan.id in h.spaces && plan.version < h.spaces[plan.id].version;
    OutdatedPlanNeverApplies(h, steps, plan.id, plan.version);
  }

  /** Activating does something exactly for a space at the planned version that is ready or was replaced,
      all of whose listed chunks count as covered. */
  lemma ActivatesIff(k: Knowledge, id: string, version: nat)
    ensures Next(k, Activate(id, version)) != k <==>
      && id in k.spaces && k.spaces[id].version == version && k.spaces[id].state in {Ready, Deprecated}
      && 0 < |ListedIds(k.chunks)| == |CoveredRows(k.spaces[id].index, k.chunks)|
    ensures var h := Next(k, Activate(id, version));
      h != k ==> h.active == Some(id) && h.spaces[id].state == Ready
                 && forall other | other in k.spaces && other != id :: other in h.spaces
                      && h.spaces[other].state == (if k.active == Some(other) then Deprecated else k.spaces[other].state)
                      && h.spaces[other].index == k.spaces[other].index && h.spaces[other].queries == k.spaces[other].queries
  {
    var h := Next(k, Activate(id, version));
    if ActivationRefusal(k, id, version).Pass? {
      assert h.spaces[id].version == k.spaces[id].version + 1;
    }
  }

  /** Deleting does something exactly for a space at the planned version that is not the active one, and
      then leaves it empty and every other space as it was. */
  lemma DeletesIff(k: Knowledge, id: string, version: nat)
    ensures Next(k, Delete(id, version)) != k <==>
      id in k.spaces && k.spaces[id].version == version && k.active != Some(id)
    ensures var h := Next(k, Delete(id, version));
      h != k ==> h.active == k.active && h.spaces[id].state == Deleted && h.spaces[id].queries == {}
                 && h.spaces[id].index.rows == map[] && h.spaces[id].index.vectors == {}
                 && forall other | other in k.spaces && other != id :: other in h.spaces && h.spaces[other] == k.spaces[other]
  {
    var h := Next(k, Delete(id, version));
    if DeletionRefusal(k, id, version).Pass? {
      assert h.spaces[id].version == k.spaces[id].version + 1;
    }
  }

  /** Verifying looks only at a built or ready space whose sentinel holds, and finds it ready exactly if
      there are listed chunks and as many covered. */
  lemma VerifiesIff(k: Knowledge, id: string, holds: bool)
    requires Sound(k)
    ensures var h := Next(k, Verify(id, holds));
      if holds && id in k.spaces && k.spaces[id].state in {Verifying, Ready} then
        && id in h.spaces && h.spaces[id].version == k.spaces[id].version + 1
        && h.spaces[id].state == if 0 < |ListedIds(k.chunks)| == |CoveredRows(k.spaces[id].index, k.chunks)| then Ready else BuildFailed
      else h == k
  {
    if id in k.spaces {
      assert SpaceOk(k.spaces[id]);
      VectorsAreAlwaysStored(k.spaces[id], k.chunks);
    }
  }

  /** A space becomes ready by its verification alone, and a replaced one by being activated again. */
  lemma ReadyComesFrom(k: Knowledge, s: Step, id: string)
    requires StepOk(k, s) && id in Next(k, s).spaces && Next(k, s).spaces[id].state == Ready
    ensures id in k.spaces
    ensures k.spaces[id].state == Ready || s == Verify(id, true) || (k.spaces[id].state == Deprecated && s.Activate? && s.id == id)
  {
  }

  // ---- builds that crash and are run again ----

  /** Builds of the space over the same chunks, of which only the last one completes. */
  predicate Attempts(steps: seq<Step>, id: string, ids: seq<string>) {
    && steps != []
    && forall i | 0 <= i < |steps| ::
      && steps[i].Build? && steps[i].id == id && steps[i].ids == ids && steps[i].n <= |ids|
      && (steps[i].end.Completes? <==> i == |steps| - 1) && (steps[i].end.Completes? ==> steps[i].n == |ids|)
  }

  predicate CanBuild(k: Knowledge, id: string, ids: seq<string>) {
    Sound(k) && id in k.spaces && Buildable(k.spaces[id]) && InOrder(ids, k.chunks, Sources(k.chunks))
  }

  lemma BuildTakesPlace(k: Knowledge, s: Step)
    requires s.Build? && CanBuild(k, s.id, s.ids) && StepOk(k, s)
    ensures Next(k, s) == Put(k, s.id, Built(k.spaces[s.id], k.chunks, KeysOf(k.chunks, s.ids), s.n, s.end))
  {
    assert SpaceOk(k.spaces[s.id]);
    assert !Reusable(k.spaces[s.id], WatermarkOf(KeysOf(k.chunks, s.ids)));
  }

  /** `h` is `k` after a build of the space that saved the first `n` keys. */
  predicate BuiltInto(k: Knowledge, h: Knowledge, id: string, ids: seq<string>, n: nat)
    requires CanBuild(k, id, ids) && n <= |ids|
  {
    && h.chunks == k.chunks && CanBuild(h, id, ids)
    && h.spaces[id].index == SaveAll(k.spaces[id].index, KeysOf(k.chunks, ids)[..n])
  }

  lemma OneBuild(k: Knowledge, s: Step)
    requires s.Build? && CanBuild(k, s.id, s.ids) && StepOk(k, s)
    ensures BuiltInto(k, Next(k, s), s.id, s.ids, s.n)
  {
    BuildTakesPlace(k, s);
    StepKeepsSound(k, s);
  }

  lemma BuildThen(k: Knowledge, steps: seq<Step>) returns (h: Knowledge)
    requires steps != [] && steps[0].Build? && CanBuild(k, steps[0].id, steps[0].ids) && StepOk(k, steps[0])
    ensures BuiltInto(k, h, steps[0].id, steps[0].ids, steps[0].n)
    ensures RunOk(h, steps[1..]) ==> RunOk(k, steps) && Run(k, steps) == Run(h, steps[1..])
  {
    OneBuild(k, steps[0]);
    h := Next(k, steps[0]);
  }

  lemma WholeBuild(k: Knowledge, h: Knowledge, id: string, ids: seq<string>)
    requires CanBuild(k, id, ids) && BuiltInto(k, h, id, ids, |ids|)
    ensures h.spaces[id].index == SaveAll(k.spaces[id].index, KeysOf(k.chunks, ids))
  {
    assert KeysOf(k.chunks, ids)[..|ids|] == KeysOf(k.chunks, ids);
  }

  lemma BuildResumes(k: Knowledge, h: Knowledge, id: string, ids: seq<string>, n: nat, x: Index)
    requires CanBuild(k, id, ids) && n <= |ids| && BuiltInto(k, h, id, ids, n)
    requires x == SaveAll(h.spaces[id].index, KeysOf(h.chunks, ids))
    ensures x == SaveAll(k.spaces[id].index, KeysOf(k.chunks, ids))
  {
    ResumedSavesAgree(k.spaces[id].index, KeysOf(k.chunks, ids), n);
  }

  /** A build run again until it completes, after any number of failed attempts, leaves the index
      one uninterrupted build leaves. */
  lemma {:induction false} ResumedBuildAgrees(k: Knowledge, steps: seq<Step>, id: string, ids: seq<string>)
    requires CanBuild(k, id, ids) && Attempts(steps, id, ids)
    ensures RunOk(k, steps) && id in Run(k, steps).spaces && Run(k, steps).chunks == k.chunks
    ensures Run(k, steps).spaces[id].index == SaveAll(k.spaces[id].index, KeysOf(k.chunks, ids))
    decreases |steps|
  {
    var h := BuildThen(k, steps);
    if |steps| == 1 {
      assert steps[1..] == [];
      WholeBuild(k, h, id, ids);
    } else {
      ResumedBuildAgrees(h, steps[1..], id, ids);
      BuildResumes(k, h, id, ids, steps[0].n, Run(h, steps[1..]).spaces[id].index);
    }
  }

  /** It then covers every listed chunk, once each, exactly when none had a stale row. */
  lemma ResumedBuildIsFullIff(k: Knowledge, steps: seq<Step>, id: string, ids: seq<string>)
    requires CanBuild(k, id, ids) && Attempts(steps, id, ids)
    ensures RunOk(k, steps) && id in Run(k, steps).spaces && Consistent(Run(k, steps).spaces[id].index)
    ensures Full(Run(k, steps).spaces[id].index, k.chunks, Sources(k.chunks))
            <==> NoStaleRow(k.spaces[id].index, k.chunks, Sources(k.chunks))
  {
    ResumedBuildAgrees(k, steps, id, ids);
    var x, ks := k.spaces[id].index, KeysOf(k.chunks, ids);
    assert SpaceOk(k.spaces[id]);
    SavingKeepsConsistent(x, ks);
    forall o | o in k.chunks && Listed(k.chunks, o, Sources(k.chunks))
      ensures Covered(SaveAll(x, ks), k.chunks, o) <==> !HasStale(x, KeyOf(k.chunks, o))
    {
      var i :| 0 <= i < |ids| && ids[i] == o;
      assert ks[i] == KeyOf(k.chunks, o);
      SavedIsActiveIff(x, ks, KeyOf(k.chunks, o));
    }
  }

  // ---- what the counts mean ----

  lemma {:induction false} InjectiveImage(keys: set<Key>, ids: set<string>)
    requires forall a, b | a in keys && b in keys && a.chunkId == b.chunkId :: a == b
    requires forall id :: id in ids <==> exists k :: k in keys && k.chunkId == id
    ensures |keys| == |ids|
    decreases keys
  {
    if keys == {} {
      assert ids == {};
    } else {
      var k :| k in keys;
      assert k.chunkId in ids;
      var keys' := keys - {k};
      var ids' := ids - {k.chunkId};
      forall id ensures id in ids' <==> exists o :: o in keys' && o.chunkId == id {
        if id in ids' {
          var o :| o in keys && o.chunkId == id;
          assert o in keys';
        }
      }
      InjectiveImage(keys', ids');
    }
  }

  function CoveredIds(x: Index, cs: Chunks): set<string> {
    set id | id in cs && cs[id].active && Covered(x, cs, id)
  }

  lemma CoveredRowsCountChunks(x: Index, cs: Chunks)
    ensures |CoveredRows(x, cs)| == |CoveredIds(x, cs)|
  {
    forall id ensures id in CoveredIds(x, cs) <==> exists k :: k in CoveredRows(x, cs) && k.chunkId == id {
      if id in CoveredIds(x, cs) {
        assert KeyOf(cs, id) in CoveredRows(x, cs);
      }
      if k :| k in CoveredRows(x, cs) && k.chunkId == id {
        assert k == KeyOf(cs, id);
      }
    }
    InjectiveImage(CoveredRows(x, cs), CoveredIds(x, cs));
  }

  lemma SubsetOfSameSize<T>(a: set<T>, b: set<T>)
    requires |a| == |b|
    ensures a <= b <==> b <= a
  {
    if a <= b {
      assert |b - a| == |b| - |a|;
    }
    if b <= a {
      assert |a - b| == |a| - |b|;
    }
  }

  /** Activation compares two counts. Equal counts mean that every listed chunk is covered exactly
      when no covered chunk is unlisted: a chunk that is active but not listed (its document is not
      active, or has moved on) can stand in for one that has no embedding. */
  lemma CountsMeanFullIff(x: Index, cs: Chunks)
    requires CoverageComplete(x, cs)
    ensures Full(x, cs, Sources(cs)) <==>
            forall id | id in cs && cs[id].active && Covered(x, cs, id) :: cs[id].listed
  {
    CoveredRowsCountChunks(x, cs);
    SubsetOfSameSize(CoveredIds(x, cs), ListedIds(cs));
    forall id | id in cs && cs[id].active
      ensures id in ListedIds(cs) <==> cs[id].listed
      ensures Listed(cs, id, Sources(cs)) <==> cs[id].listed
    {
    }
    assert ListedIds(cs) <= CoveredIds(x, cs) <==> forall id | id in ListedIds(cs) :: id in CoveredIds(x, cs);
    assert CoveredIds(x, cs) <= ListedIds(cs) <==> forall id | id in CoveredIds(x, cs) :: id in ListedIds(cs);
  }

  /** Such a case: one listed chunk without an embedding, one embedded chunk that is not listed. */
  lemma UnlistedChunkStandsIn(x: Index, cs: Chunks)
    requires cs == map["a" := Chunk("h", true, true, "s"), "b" := Chunk("g", true, false, "s")]
    requires x == Index(map[Key("b", "g") := true], {Key("b", "g")})
    ensures CoverageComplete(x, cs) && !Full(x, cs, Sources(cs))
  {
    assert cs["a"].sourceId in Sources(cs);
    assert ListedIds(cs) == {"a"};
    assert CoveredRows(x, cs) == {Key("b", "g")};
    assert Listed(cs, "a", Sources(cs)) && !Covered(x, cs, "a");
  }

  lemma {:induction false} RunOne(k: Knowledge, s: Step, rest: seq<Step>)
    requires StepOk(k, s) && RunOk(Next(k, s), rest)
    ensures RunOk(k, [s] + rest) && Run(k, [s] + rest) == Run(Next(k, s), rest)
  {
    assert ([s] + rest)[1..] == rest;
  }

  lemma {:induction false} RunInParts(k: Knowledge, a: seq<Step>, b: seq<Step>)
    requires RunOk(k, a) && RunOk(Run(k, a), b)
    ensures RunOk(k, a + b) && Run(k, a + b) == Run(Run(k, a), b)
    decreases |a|
  {
    if a == [] {
      assert a + b == b;
    } else {
      assert (a + b)[1..] == a[1..] + b;
      RunInParts(Next(k, a[0]), a[1..], b);
    }
  }

  /** Whenever a space becomes active its counts are complete, so unless a covered chunk is
      unlisted, every listed chunk is covered, and there is at least one. */
  lemma ActivationHasCoverage(k: Knowledge, s: Step)
    requires Sound(k) && StepOk(k, s)
    requires Next(k, s).active != k.active
    ensures s.Activate? && s.id in k.spaces && Next(k, s).active == Some(s.id)
    ensures CoverageComplete(k.spaces[s.id].index, k.chunks)
    ensures (forall id | id in k.chunks && k.chunks[id].active && Covered(k.spaces[s.id].index, k.chunks, id) ::
              k.chunks[id].listed)
            ==> Full(k.spaces[s.id].index, k.chunks, Sources(k.chunks))
    ensures k.active.Some? ==> Next(k, s).spaces[k.active.value].state == Deprecated
  {
    CountsMeanFullIff(k.spaces[s.id].index, k.chunks);
  }

  /** The third test of verification never decides: a consistent index has its vectors. */
  lemma VectorsAreAlwaysStored(s: Space, cs: Chunks)
    requires SpaceOk(s)
    ensures |s.index.vectors| >= |CoveredRows(s.index, cs)|
    ensures Passes(s, cs) <==> CoverageComplete(s.index, cs)
  {
    var rows, vectors := CoveredRows(s.index, cs), s.index.vectors;
    assert rows <= vectors;
    assert |vectors - rows| == |vectors| - |rows|;
  }
}
