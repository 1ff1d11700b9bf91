/** Merging, moderating, deleting and restoring entities (graph-plans.ts, graph-moderation.ts):
    what every run keeps of the redirects and the versions. */
module EntityGraph {
  import opened Outcomes
  import opened Redirects

  datatype Status = Proposed | Active | NeedsReview | Redirected | Rejected | Deleted

  datatype Entity = Entity(nodeId: string, entityType: string, status: Status, confirmed: bool, version: nat)

  datatype Node = Node(status: Status, version: nat, deletedAt: bool)

  datatype MergePlan = MergePlan(source: EntityId, target: EntityId, sourceVersion: nat, targetVersion: nat)

  datatype GraphError = NotFound | NotMergeable | TypesDiffer | IntoItself | NoGeneration | PlanNotFound
                      | VersionConflict | RedirectCycle | RedirectExists | IdTaken | StateInvalid

  datatype Graph = Graph(entities: map<EntityId, Entity>, nodes: map<string, Node>, redirects: Links,
                         hasGeneration: bool, plans: set<MergePlan>)

  // ---- one operation each ----

  function Mergeable(g: Graph, id: EntityId): Outcome<GraphError> {
    if id !in g.entities then Fail(NotFound)
    else if g.entities[id].status in {Deleted, Redirected} then Fail(NotMergeable)
    else Pass
  }

  /** createGraphPlan, for a merge. */
  function MergePlanFor(g: Graph, source: EntityId, target: EntityId): Result<MergePlan, GraphError> {
    if Mergeable(g, source).Fail? then Failure(Mergeable(g, source).error)
    else if Mergeable(g, target).Fail? then Failure(Mergeable(g, target).error)
    else if g.entities[source].entityType != g.entities[target].entityType then Failure(TypesDiffer)
    else if source == target then Failure(IntoItself)
    else Success(MergePlan(source, target, g.entities[source].version, g.entities[target].version))
  }

  /** Why a merge plan is refused, in the order the checks are made. The redirect table holds one
      row a source, so a second one is refused by its key. */
  ghost function MergeRefusal(g: Graph, p: MergePlan): Outcome<GraphError> {
    if p !in g.plans then Fail(PlanNotFound)
    else if !g.hasGeneration then Fail(NoGeneration)
    else if Mergeable(g, p.source).Fail? then Mergeable(g, p.source)
    else if Mergeable(g, p.target).Fail? then Mergeable(g, p.target)
    else if g.entities[p.source].version != p.sourceVersion || g.entities[p.target].version != p.targetVersion then
      Fail(VersionConflict)
    else if Reaches(g.redirects, p.target, p.source) then Fail(RedirectCycle)
    else if p.source in g.redirects then Fail(RedirectExists)
    else Pass
  }

  function BumpNode(nodes: map<string, Node>, id: string, status: Status): map<string, Node> {
    if id in nodes then nodes[id := nodes[id].(status := status, version := nodes[id].version + 1)] else nodes
  }

  function Merged(g: Graph, p: MergePlan): Graph
    requires p.source in g.entities && p.target in g.entities
  {
    var source := g.entities[p.source];
    var moved := g.entities[p.source := source.(status := Redirected, version := source.version + 1)];
    g.(redirects := g.redirects[p.source := p.target],
       entities := moved[p.target := moved[p.target].(version := moved[p.target].version + 1)],
       nodes := BumpNode(g.nodes, source.nodeId, Redirected))
  }

  /** moderateGraphObject, for an entity: it looks at the version, never at the state. */
  function Moderation(g: Graph, id: EntityId, confirm: bool, ifVersion: Option<nat>): Result<Graph, GraphError> {
    if id !in g.entities then Failure(NotFound)
    else
      var e := g.entities[id];
      var status := if confirm then Active else Rejected;
      if ifVersion.Some? && ifVersion.value != e.version then Failure(VersionConflict)
      else if e.status == status && e.confirmed == confirm then Success(g)
      else Success(g.(entities := g.entities[id := e.(status := status, confirmed := confirm, version := e.version + 1)]))
  }

  function Creation(g: Graph, id: EntityId, nodeId: string, entityType: string, status: Status): Result<Graph, GraphError> {
    if !g.hasGeneration then Failure(NoGeneration)
    else if id in g.entities || (exists e | e in g.entities :: g.entities[e].nodeId == nodeId) then Failure(IdTaken)
    else
      Success(g.(entities := g.entities[id := Entity(nodeId, entityType, status, true, 1)],
                 nodes := if nodeId in g.nodes then g.nodes else g.nodes[nodeId := Node(Active, 1, false)]))
  }

  /** Planning and applying an entity's deletion in one step: its entity and node rows. */
  function Deletion(g: Graph, id: EntityId): Result<Graph, GraphError> {
    if id !in g.entities then Failure(NotFound)
    else
      var e := g.entities[id];
      if e.status in {Deleted, Redirected} then Failure(StateInvalid)
      else if e.nodeId in g.nodes && g.nodes[e.nodeId].deletedAt then Failure(VersionConflict)
      else
        var nodes := BumpNode(g.nodes, e.nodeId, Deleted);
        Success(g.(entities := g.entities[id := e.(status := Deleted, version := e.version + 1)],
                   nodes := if e.nodeId in nodes then nodes[e.nodeId := nodes[e.nodeId].(deletedAt := true)] else nodes))
  }

  /** What a deletion recorded of the node: its status, and the version it wrote. */
  datatype NodeRecord = NodeRecord(prior: Status, version: nat)

  /** Reversing a recorded deletion: `prior` and `version` are the status the entity had and the
      version the deletion wrote, `node` the same of its node row, if it had one. */
  function Restoration(g: Graph, id: EntityId, prior: Status, version: nat, node: Option<NodeRecord>): Result<Graph, GraphError>
    requires prior !in {Deleted, Redirected}
  {
    if id !in g.entities then Failure(NotFound)
    else
      var e := g.entities[id];
      if e.status != Deleted || e.version != version then Failure(VersionConflict)
      else if node.Some? && e.nodeId !in g.nodes then Failure(NotFound)
      else if node.Some? && g.nodes[e.nodeId] != Node(Deleted, node.value.version, true) then Failure(VersionConflict)
      else
        Success(g.(entities := g.entities[id := e.(status := prior, version := e.version + 1)],
                   nodes := if node.None? then g.nodes
                            else g.nodes[e.nodeId := Node(node.value.prior, node.value.version + 1, false)]))
  }

  // ---- runs ----

  datatype Step =
    | Create(id: EntityId, nodeId: string, entityType: string, status: Status)
    | PlanMerge(source: EntityId, target: EntityId)
    | ApplyMerge(plan: MergePlan)
    | Moderate(id: EntityId, confirm: bool, ifVersion: Option<nat>)
    | Delete(id: EntityId)
    | Restore(id: EntityId, prior: Status, version: nat, node: Option<NodeRecord>)

  ghost predicate StepOk(s: Step) {
    match s
    case Create(_, _, _, status) => status !in {Redirected, Deleted}
    case Restore(_, prior, _, _) => prior !in {Redirected, Deleted}
    case _ => true
  }

  ghost function Attempt(g: Graph, s: Step): Result<Graph, GraphError>
    requires StepOk(s)
  {
    match s
    case Create(id, nodeId, entityType, status) => Creation(g, id, nodeId, entityType, status)
    case PlanMerge(source, target) =>
      (match MergePlanFor(g, source, target)
       case Failure(e) => Failure(e)
       case Success(p) => Success(g.(plans := g.plans + {p})))
    case ApplyMerge(p) =>
      (match MergeRefusal(g, p)
       case Fail(e) => Failure(e)
       case Pass => Success(Merged(g, p)))
    case Moderate(id, confirm, ifVersion) => Moderation(g, id, confirm, ifVersion)
    case Delete(id) => Deletion(g, id)
    case Restore(id, prior, version, node) => Restoration(g, id, prior, version, node)
  }

  /** Every operation runs in one transaction: refused, it changes nothing. */
  ghost function Next(g: Graph, s: Step): Graph
    requires StepOk(s)
  {
    match Attempt(g, s)
    case Failure(_) => g
    case Success(after) => after
  }

  ghost function Run(g: Graph, steps: seq<Step>): Graph
    requires forall s | s in steps :: StepOk(s)
    decreases |steps|
  {
    if steps == [] then g else Run(Next(g, steps[0]), steps[1..])
  }

  // ---- what every run keeps ----

  predicate SameType(g: Graph, a: EntityId, b: EntityId) {
    a in g.entities && b in g.entities && g.entities[a].entityType == g.entities[b].entityType
  }

  ghost predicate Sound(g: Graph) {
    && Acyclic(g.redirects)
    && (forall e | e in g.redirects :: SameType(g, e, g.redirects[e]))
    && (forall p | p in g.plans :: SameType(g, p.source, p.target))
  }

  lemma StepAddsSafeLinks(g: Graph, s: Step)
    requires Sound(g) && StepOk(s)
    ensures Acyclic(Next(g, s).redirects)
    ensures forall e | e in Next(g, s).redirects ::
      (e in g.redirects && Next(g, s).redirects[e] == g.redirects[e]) || SameType(g, e, Next(g, s).redirects[e])
    ensures forall p | p in Next(g, s).plans :: p in g.plans || SameType(g, p.source, p.target)
  {
    if s.ApplyMerge? && MergeRefusal(g, s.plan).Pass? {
      NewLinkIsSafeIff(g.redirects, s.plan.source, s.plan.target);
    }
  }

  lemma StepKeepsSound(g: Graph, s: Step)
    requires Sound(g) && StepOk(s)
    ensures Sound(Next(g, s))
  {
    StepAddsSafeLinks(g, s);
    StepGrows(g, s);
    var h := Next(g, s);
    forall a, b | SameType(g, a, b) ensures SameType(h, a, b) {
      assert SameTypeIn(g, h, a) && SameTypeIn(g, h, b);
    }
  }

  lemma {:induction false} RunKeepsSound(g: Graph, steps: seq<Step>)
    requires Sound(g) && forall s | s in steps :: StepOk(s)
    ensures Sound(Run(g, steps))
    decreases |steps|
  {
    if steps != [] {
      StepKeepsSound(g, steps[0]);
      RunKeepsSound(Next(g, steps[0]), steps[1..]);
    }
  }

  lemma {:induction false} FollowKeepsType(g: Graph, e: EntityId, n: nat)
    requires Sound(g) && e in g.entities && Follow(g.redirects, e, n).Some?
    ensures SameType(g, e, Follow(g.redirects, e, n).value)
    decreases n
  {
    if n > 0 && e in g.redirects {
      FollowKeepsType(g, g.redirects[e], n - 1);
    }
  }

  const EMPTY := Graph(map[], map[], map[], true, {})

  /** After any run from an empty graph, following redirects from any entity ends, within as many
      steps as there are redirects, at an entity of the same type that is not redirected. */
  lemma RedirectsResolve(steps: seq<Step>, e: EntityId) returns (n: nat)
    requires forall s | s in steps :: StepOk(s)
    requires e in Run(EMPTY, steps).entities
    ensures var g := Run(EMPTY, steps);
      && n <= |g.redirects.Keys|
      && Follow(g.redirects, e, n).Some? && Follow(g.redirects, e, n).value !in g.redirects
      && SameType(g, e, Follow(g.redirects, e, n).value)
  {
    forall x: EntityId ensures !LeadsOn(EMPTY.redirects, x, x) {}
    RunKeepsSound(EMPTY, steps);
    var g := Run(EMPTY, steps);
    n := FollowingEnds(g.redirects, e);
    FollowKeepsType(g, e, n);
  }

  // ---- versions ----

  /** Entities are never removed nor change type; whatever is written moves by one version. */
  predicate Grows(g: Graph, h: Graph) {
    && (forall e | e in g.entities :: SameTypeIn(g, h, e) && h.entities[e].version >= g.entities[e].version)
    && (forall e | e in g.redirects :: e in h.redirects && h.redirects[e] == g.redirects[e])
    && g.plans <= h.plans
  }

  predicate SameTypeIn(g: Graph, h: Graph, e: EntityId) {
    && e in g.entities && e in h.entities
    && g.entities[e].entityType == h.entities[e].entityType && g.entities[e].nodeId == h.entities[e].nodeId
  }

  predicate PlansHaveDistinctEnds(g: Graph) {
    forall p | p in g.plans :: p.source != p.target
  }

  lemma StepGrows(g: Graph, s: Step)
    requires StepOk(s)
    ensures Grows(g, Next(g, s))
  {
  }

  /** One write, one version: a step moves the version of an entity by one exactly when it
      changes the entity. */
  lemma StepMovesVersions(g: Graph, s: Step, e: EntityId)
    requires StepOk(s) && PlansHaveDistinctEnds(g) && e in g.entities
    ensures PlansHaveDistinctEnds(Next(g, s))
    ensures var h := Next(g, s);
      e in h.entities && h.entities[e].version == g.entities[e].version + if h.entities[e] == g.entities[e] then 0 else 1
  {
    StepGrows(g, s);
  }

  lemma {:induction false} RunGrows(g: Graph, steps: seq<Step>)
    requires forall s | s in steps :: StepOk(s)
    ensures Grows(g, Run(g, steps))
    decreases |steps|
  {
    if steps != [] {
      StepGrows(g, steps[0]);
      RunGrows(Next(g, steps[0]), steps[1..]);
      GrowsChains(g, Next(g, steps[0]), Run(g, steps));
    }
  }

  lemma GrowsChains(g: Graph, h: Graph, k: Graph)
    requires Grows(g, h) && Grows(h, k)
    ensures Grows(g, k)
  {
    forall e | e in g.entities ensures SameTypeIn(g, k, e) && k.entities[e].version >= g.entities[e].version {
      assert SameTypeIn(g, h, e) && SameTypeIn(h, k, e);
    }
  }

  /** An end of the plan was written since the plan recorded its version. */
  predicate Overtaken(g: Graph, p: MergePlan) {
    && p.source in g.entities && p.target in g.entities
    && (g.entities[p.source].version > p.sourceVersion || g.entities[p.target].version > p.targetVersion)
  }

  /** Once either end of a merge plan has been written, in any way, the plan never applies again,
      whatever happens in between. */
  lemma OvertakenPlanNeverApplies(g: Graph, p: MergePlan, steps: seq<Step>)
    requires Overtaken(g, p) && forall s | s in steps :: StepOk(s)
    ensures Overtaken(Run(g, steps), p) && MergeRefusal(Run(g, steps), p).Fail?
  {
    RunGrows(g, steps);
    assert SameTypeIn(g, Run(g, steps), p.source) && SameTypeIn(g, Run(g, steps), p.target);
  }

  /** In particular a merge plan applies at most once. */
  lemma MergeAppliesOnce(g: Graph, p: MergePlan, steps: seq<Step>)
    requires MergeRefusal(g, p).Pass? && forall s | s in steps :: StepOk(s)
    ensures MergeRefusal(Run(Merged(g, p), steps), p).Fail?
  {
    OvertakenPlanNeverApplies(Merged(g, p), p, steps);
  }

  lemma EndsDiffer(r: Links, from: EntityId, to: EntityId)
    requires !Reaches(r, from, to)
    ensures from != to
  {
    assert Follow(r, from, 0) == Some(from);
  }

  /** When a merge goes through, and what it comes to: a redirect, the source redirected, both ends one
      version on, and the source's node with it. */
  lemma MergeAppliesIff(g: Graph, p: MergePlan)
    ensures Attempt(g, Step.ApplyMerge(p)).Success? <==>
      && p in g.plans && g.hasGeneration
      && p.source in g.entities && g.entities[p.source].status !in {Deleted, Redirected}
      && p.target in g.entities && g.entities[p.target].status !in {Deleted, Redirected}
      && g.entities[p.source].version == p.sourceVersion && g.entities[p.target].version == p.targetVersion
      && p.source !in g.redirects && !Reaches(g.redirects, p.target, p.source)
    ensures Attempt(g, Step.ApplyMerge(p)).Success? ==> MergedInto(g, Next(g, Step.ApplyMerge(p)), p)
  {
    if MergeRefusal(g, p).Pass? {
      EndsDiffer(g.redirects, p.target, p.source);
    }
  }

  ghost predicate MergedInto(g: Graph, h: Graph, p: MergePlan)
    requires p.source in g.entities && p.target in g.entities
  {
    var node := g.entities[p.source].nodeId;
    && h.redirects == g.redirects[p.source := p.target] && h.entities.Keys == g.entities.Keys
    && h.entities[p.source] == g.entities[p.source].(status := Redirected, version := g.entities[p.source].version + 1)
    && h.entities[p.target] == g.entities[p.target].(version := g.entities[p.target].version + 1)
    && (forall e | e in h.entities && e != p.source && e != p.target :: h.entities[e] == g.entities[e])
    && h.nodes.Keys == g.nodes.Keys && (forall n | n in g.nodes && n != node :: h.nodes[n] == g.nodes[n])
    && (node in g.nodes ==> h.nodes[node] == g.nodes[node].(status := Redirected, version := g.nodes[node].version + 1))
    && h.plans == g.plans
  }

  /** A deletion goes through exactly for an entity that is neither deleted nor redirected and whose node
      carries no deletion time; restoring it right after gives the graph back, with the versions of the
      entity and its node two higher. */
  lemma DeletedComesBack(g: Graph, id: EntityId)
    ensures Attempt(g, Delete(id)).Success? <==>
      && id in g.entities && g.entities[id].status !in {Deleted, Redirected}
      && (g.entities[id].nodeId in g.nodes ==> !g.nodes[g.entities[id].nodeId].deletedAt)
    ensures Attempt(g, Delete(id)).Success? ==>
      var h, e := Next(g, Delete(id)), g.entities[id];
      && id in h.entities && h.entities[id] == e.(status := Deleted, version := e.version + 1)
      && h.nodes.Keys == g.nodes.Keys
      && (e.nodeId in g.nodes ==> h.nodes[e.nodeId] == Node(Deleted, g.nodes[e.nodeId].version + 1, true))
      && Attempt(h, Restore(id, e.status, h.entities[id].version, Recorded(g, h, e.nodeId))) == Success(Later(g, id))
  {
    if Attempt(g, Delete(id)).Success? {
      var h, e := Next(g, Delete(id)), g.entities[id];
      var back := Restoration(h, id, e.status, h.entities[id].version, Recorded(g, h, e.nodeId)).value;
      assert back.entities == Later(g, id).entities;
      assert back.nodes == Later(g, id).nodes;
    }
  }

  /** What the deletion that led from `g` to `h` recorded of the node. */
  function Recorded(g: Graph, h: Graph, node: string): Option<NodeRecord>
    requires node in g.nodes ==> node in h.nodes
  {
    if node in g.nodes then Some(NodeRecord(g.nodes[node].status, h.nodes[node].version)) else None
  }

  /** The graph, with the entity and its node written twice since. */
  function Later(g: Graph, id: EntityId): Graph
    requires id in g.entities
  {
    var e := g.entities[id];
    g.(entities := g.entities[id := e.(version := e.version + 2)],
       nodes := if e.nodeId !in g.nodes then g.nodes
                else g.nodes[e.nodeId := g.nodes[e.nodeId].(version := g.nodes[e.nodeId].version + 2)])
  }

  /** A restore is refused as soon as the entity is not the deleted one of that version any more. */
  lemma RestoresOnce(g: Graph, s: Step, steps: seq<Step>)
    requires s.Restore? && StepOk(s) && (forall t | t in steps :: StepOk(t)) && Attempt(g, s).Success?
    ensures Attempt(Run(Next(g, s), steps), s).Failure?
  {
    RunGrows(Next(g, s), steps);
  }

  // ---- moderation after a merge ----

  /** Moderation does not look at the state, so a merged entity can be made active again; it stays
      redirected all the same, and no later plan can merge it. */
  lemma ReactivatedEntityStaysRedirected(g: Graph, id: EntityId, steps: seq<Step>, p: MergePlan)
    requires id in g.entities && id in g.redirects && g.entities[id].status == Redirected
    requires p.source == id && forall s | s in steps :: StepOk(s)
    ensures var h := Next(g, Moderate(id, true, None));
      && h.entities[id].status == Active && h.redirects == g.redirects
      && id in Run(h, steps).redirects && Run(h, steps).redirects[id] == g.redirects[id]
      && MergeRefusal(Run(h, steps), p).Fail?
  {
    RunGrows(Next(g, Moderate(id, true, None)), steps);
  }

  /** A moderation of the entity that goes through: no version was asked for, or the current one. */
  predicate Reactivates(g: Graph, s: Step, id: EntityId) {
    s.Moderate? && s.id == id && id in g.entities && (s.ifVersion.None? || s.ifVersion.value == g.entities[id].version)
  }

  predicate IsRedirected(g: Graph, id: EntityId) {
    id in g.entities && g.entities[id].status == Redirected
  }

  /** A redirected entity keeps the status exactly over the steps that are not such a moderation; one
      with a redirect and another status never gets the status again. */
  lemma StepStaysRedirectedIff(g: Graph, s: Step, id: EntityId)
    requires StepOk(s) && PlansHaveDistinctEnds(g) && id in g.entities && id in g.redirects
    ensures IsRedirected(Next(g, s), id) <==> IsRedirected(g, id) && !Reactivates(g, s, id)
  {
  }

  ghost predicate RedirectedAreLinked(g: Graph) {
    PlansHaveDistinctEnds(g) && forall e | IsRedirected(g, e) :: e in g.redirects
  }

  lemma StepKeepsLinked(g: Graph, s: Step)
    requires StepOk(s) && RedirectedAreLinked(g)
    ensures RedirectedAreLinked(Next(g, s))
  {
    var h := Next(g, s);
    forall e | IsRedirected(h, e) ensures e in h.redirects {
      assert IsRedirected(g, e) || h.redirects != g.redirects;
    }
  }

  lemma {:induction false} RunKeepsLinked(g: Graph, steps: seq<Step>)
    requires RedirectedAreLinked(g) && forall s | s in steps :: StepOk(s)
    ensures RedirectedAreLinked(Run(g, steps))
    decreases |steps|
  {
    if steps != [] {
      StepKeepsLinked(g, steps[0]);
      RunKeepsLinked(Next(g, steps[0]), steps[1..]);
    }
  }

  /** Over a run: a merged entity is redirected at the end exactly when no step moderated it with
      the version it then had, or without asking for one. */
  lemma {:induction false} RunStaysRedirectedIff(g: Graph, steps: seq<Step>, id: EntityId)
    requires forall s | s in steps :: StepOk(s)
    requires PlansHaveDistinctEnds(g) && id in g.entities && id in g.redirects
    ensures IsRedirected(Run(g, steps), id) <==>
            IsRedirected(g, id) && forall k | 0 <= k < |steps| :: !Reactivates(Run(g, steps[..k]), steps[k], id)
    decreases |steps|
  {
    if steps != [] {
      var h, rest := Next(g, steps[0]), steps[1..];
      StepStaysRedirectedIff(g, steps[0], id);
      StepMovesVersions(g, steps[0], id);
      StepGrows(g, steps[0]);
      RunStaysRedirectedIff(h, rest, id);
      assert steps[..0] == [];
      forall k | 0 <= k < |rest| ensures Run(h, rest[..k]) == Run(g, steps[..k + 1]) && rest[k] == steps[k + 1] {
        assert steps[..k + 1][0] == steps[0] && steps[..k + 1][1..] == rest[..k];
      }
      if k :| 0 <= k < |steps| && Reactivates(Run(g, steps[..k]), steps[k], id) && k > 0 {
        assert Reactivates(Run(h, rest[..k - 1]), rest[k - 1], id);
      }
      if k :| 0 <= k < |rest| && Reactivates(Run(h, rest[..k]), rest[k], id) {
        assert Reactivates(Run(g, steps[..k + 1]), steps[k + 1], id);
      }
    }
  }

  /** So in every run from an empty graph, an entity merged at some point is still redirected at the
      end exactly when it was not moderated in between. */
  lemma MergedStaysRedirectedIff(before: seq<Step>, steps: seq<Step>, id: EntityId)
    requires (forall s | s in before :: StepOk(s)) && forall s | s in steps :: StepOk(s)
    requires IsRedirected(Run(EMPTY, before), id)
    ensures var g := Run(EMPTY, before);
      IsRedirected(Run(g, steps), id) <==> forall k | 0 <= k < |steps| :: !Reactivates(Run(g, steps[..k]), steps[k], id)
  {
    RunKeepsLinked(EMPTY, before);
    RunStaysRedirectedIff(Run(EMPTY, before), steps, id);
  }

  /** A plan that passes every other check is refused as a cycle exactly when it would close one. */
  lemma CycleCheckMatters(g: Graph, p: MergePlan)
    requires p in g.plans && g.hasGeneration
    requires Mergeable(g, p.source).Pass? && Mergeable(g, p.target).Pass?
    requires g.entities[p.source].version == p.sourceVersion && g.entities[p.target].version == p.targetVersion
    requires p.source !in g.redirects && Acyclic(g.redirects)
    ensures MergeRefusal(g, p) == Fail(RedirectCycle) <==> !Acyclic(Merged(g, p).redirects)
    ensures MergeRefusal(g, p).Pass? <==> Acyclic(Merged(g, p).redirects)
  {
    NewLinkIsSafeIff(g.redirects, p.source, p.target);
  }

  /** A merged into B, A made active again, and a merge of B into A planned. */
  function ThereAndBack(a: EntityId, b: EntityId): seq<Step> {
    [Create(a, "node " + a, "person", Active), Create(b, "node " + b, "person", Active),
     PlanMerge(a, b), Step.ApplyMerge(MergePlan(a, b, 1, 1)),
     Moderate(a, true, None), PlanMerge(b, a)]
  }

  lemma RunOne(g: Graph, s: Step, rest: seq<Step>)
    requires StepOk(s) && forall t | t in rest :: StepOk(t)
    ensures forall t | t in [s] + rest :: StepOk(t)
    ensures Run(g, [s] + rest) == Run(Next(g, s), rest)
  {
    assert ([s] + rest)[1..] == rest;
  }

  lemma NamesDiffer(a: string, b: string)
    requires a != b
    ensures "node " + a != "node " + b
  {
    assert ("node " + a)[5..] == a && ("node " + b)[5..] == b;
  }

  /** After the two creations and the first merge. */
  lemma FirstMerge(a: EntityId, b: EntityId, steps: seq<Step>, g: Graph)
    requires a != b && steps == ThereAndBack(a, b)
    requires g == Graph(
      map[a := Entity("node " + a, "person", Redirected, true, 2), b := Entity("node " + b, "person", Active, true, 2)],
      map["node " + a := Node(Redirected, 2, false), "node " + b := Node(Active, 1, false)],
      map[a := b], true, {MergePlan(a, b, 1, 1)})
    ensures (forall s | s in steps :: StepOk(s)) && Run(EMPTY, steps) == Run(g, steps[4..])
  {
    NamesDiffer(a, b);
    var g1 := Next(EMPTY, steps[0]);
    assert g1.entities == map[a := Entity("node " + a, "person", Active, true, 1)];
    var g2 := Next(g1, steps[1]);
    assert g2.entities[b] == Entity("node " + b, "person", Active, true, 1);
    var g3 := Next(g2, steps[2]);
    assert g3.plans == {MergePlan(a, b, 1, 1)};
    NoLinks(b, a);
    assert Next(g3, steps[3]) == g;
    assert steps == [steps[0]] + ([steps[1]] + ([steps[2]] + ([steps[3]] + steps[4..])));
    RunOne(g3, steps[3], steps[4..]);
    RunOne(g2, steps[2], [steps[3]] + steps[4..]);
    RunOne(g1, steps[1], [steps[2]] + ([steps[3]] + steps[4..]));
    RunOne(EMPTY, steps[0], [steps[1]] + ([steps[2]] + ([steps[3]] + steps[4..])));
  }

  lemma NoLinks(from: EntityId, to: EntityId)
    requires from != to
    ensures !Reaches(map[], from, to)
  {
    forall n: nat ensures Follow(map[], from, n) != Some(to) {}
  }

  /** After the moderation and the second plan. */
  lemma PlanBack(a: EntityId, b: EntityId, steps: seq<Step>, g: Graph)
    requires a != b && steps == [Moderate(a, true, None), PlanMerge(b, a)]
    requires a in g.entities && b in g.entities && g.entities[a].entityType == g.entities[b].entityType
    requires g.entities[a].status == Redirected && g.entities[a].version == 2
    requires g.entities[b].status == Active && g.entities[b].version == 2
    requires g.redirects == map[a := b] && g.hasGeneration
    ensures var h := Run(g, steps);
      && a in h.entities && a in h.redirects && h.entities[a].status == Active
      && MergePlan(b, a, 2, 3) in h.plans && MergeRefusal(h, MergePlan(b, a, 2, 3)) == Fail(RedirectCycle)
  {
    var g1 := Next(g, steps[0]);
    assert g1.entities[a].version == 3 && g1.entities[a].status == Active && g1.entities[b] == g.entities[b];
    assert MergePlanFor(g1, b, a) == Success(MergePlan(b, a, 2, 3));
    var g2 := Next(g1, steps[1]);
    assert steps == [steps[0]] + ([steps[1]] + []);
    RunOne(g1, steps[1], []);
    RunOne(g, steps[0], [steps[1]] + []);
    assert Follow(g2.redirects, g2.redirects[a], 0) == Some(b);
    assert Follow(g2.redirects, a, 1) == Some(b);
  }

  /** That run makes a merged entity active again, and ends where the plan back, with current
      versions and mergeable ends, is refused as a cycle. */
  lemma CycleIsReached(a: EntityId, b: EntityId, steps: seq<Step>)
    requires a != b && steps == ThereAndBack(a, b)
    ensures forall s | s in steps :: StepOk(s)
    ensures var g := Run(EMPTY, steps);
      && a in g.entities && a in g.redirects && g.entities[a].status == Active
      && MergePlan(b, a, 2, 3) in g.plans && MergeRefusal(g, MergePlan(b, a, 2, 3)) == Fail(RedirectCycle)
  {
    var merged := Graph(
      map[a := Entity("node " + a, "person", Redirected, true, 2), b := Entity("node " + b, "person", Active, true, 2)],
      map["node " + a := Node(Redirected, 2, false), "node " + b := Node(Active, 1, false)],
      map[a := b], true, {MergePlan(a, b, 1, 1)});
    FirstMerge(a, b, steps, merged);
    PlanBack(a, b, steps[4..], merged);
  }

  // ---- the database ----

  class Database {
    var entities: map<EntityId, Entity>
    var nodes: map<string, Node>
    var redirects: Links
    var hasGeneration: bool
    var plans: set<MergePlan>

    function Value(): Graph
      reads this
    {
      Graph(entities, nodes, redirects, hasGeneration, plans)
    }

    /** entityRow. */
    method EntityRow(id: EntityId) returns (r: Result<Entity, GraphError>)
      ensures r.Success? <==> id in entities && entities[id].status !in {Deleted, Redirected}
      ensures r.Success? ==> r.value == entities[id]
      ensures r.Failure? ==> r.error == (if id in entities then NotMergeable else NotFound)
    {
      if id !in entities {
        return Failure(NotFound);
      }
      var row := entities[id];
      if row.status == Deleted || row.status == Redirected {
        return Failure(NotMergeable);
      }
      return Success(row);
    }

    /** A plan is made exactly for two different entities of one type, both there and neither deleted
        nor redirected. It holds their versions, so it applies as long as nothing is written, if
        a generation is active and the source has no redirect and is not led to by the target. */
    method CreateMergePlan(source: EntityId, target: EntityId) returns (r: Result<MergePlan, GraphError>)
      modifies this`plans
      ensures r.Success? <==>
        && source in entities && entities[source].status !in {Deleted, Redirected}
        && target in entities && entities[target].status !in {Deleted, Redirected}
        && entities[source].entityType == entities[target].entityType && source != target
      ensures r.Success? ==>
        && r.value.source == source && r.value.target == target
        && r.value.sourceVersion == entities[source].version && r.value.targetVersion == entities[target].version
        && plans == old(plans) + {r.value}
        && (MergeRefusal(Value(), r.value).Pass? <==>
            hasGeneration && source !in redirects && !Reaches(redirects, target, source))
      ensures r.Failure? ==> plans == old(plans)
      ensures r.Failure? ==>
        match r.error
        case NotFound => source !in entities || target !in entities
        case NotMergeable =>
          || (source in entities && entities[source].status in {Deleted, Redirected})
          || (target in entities && entities[target].status in {Deleted, Redirected})
        case TypesDiffer => source in entities && target in entities && entities[source].entityType != entities[target].entityType
        case IntoItself => source == target
        case _ => false
      ensures Value() == Next(old(Value()), PlanMerge(source, target))
    {
      var from := EntityRow(source);
      if from.Failure? {
        return Failure(from.error);
      }
      var to := EntityRow(target);
      if to.Failure? {
        return Failure(to.error);
      }
      if from.value.entityType != to.value.entityType {
        return Failure(TypesDiffer);
      }
      if source == target {
        return Failure(IntoItself);
      }
      var plan := MergePlan(source, target, from.value.version, to.value.version);
      plans := plans + {plan};
      return Success(plan);
    }

    /** The merge branch of `apply`, inside its transaction: the redirect is inserted first, and
        its key is the last thing that can refuse. */
    method ApplyMerge(p: MergePlan) returns (outcome: Outcome<GraphError>)
      modifies this`entities, this`nodes, this`redirects
      ensures outcome == MergeRefusal(old(Value()), p)
      ensures Value() == Next(old(Value()), Step.ApplyMerge(p))
    {
      if p !in plans {
        return Fail(PlanNotFound);
      }
      if !hasGeneration {
        return Fail(NoGeneration);
      }
      outcome := Mergeable(Value(), p.source);
      if outcome.Fail? {
        return;
      }
      outcome := Mergeable(Value(), p.target);
      if outcome.Fail? {
        return;
      }
      var source := entities[p.source];
      if source.version != p.sourceVersion || entities[p.target].version != p.targetVersion {
        return Fail(VersionConflict);
      }
      var cycle := RedirectWouldCycle(redirects, p.source, p.target);
      if cycle {
        return Fail(RedirectCycle);
      }
      if p.source in redirects {
        return Fail(RedirectExists);
      }
      redirects := redirects[p.source := p.target];
      entities := entities[p.source := source.(status := Redirected, version := source.version + 1)];
      if source.nodeId in nodes {
        var node := nodes[source.nodeId];
        nodes := nodes[source.nodeId := node.(status := Redirected, version := node.version + 1)];
      }
      var target := entities[p.target];
      entities := entities[p.target := target.(version := target.version + 1)];
      return Pass;
    }

    /** It goes through exactly for an entity that is there, at the version asked for if one is; then the
        entity has the state and the mark of the verdict, whatever its state was, and nothing else moves. */
    method ModerateEntity(id: EntityId, confirm: bool, ifVersion: Option<nat>) returns (outcome: Outcome<GraphError>)
      modifies this`entities
      ensures Value() == Next(old(Value()), Step.Moderate(id, confirm, ifVersion))
      ensures outcome.Pass? <==> Attempt(old(Value()), Step.Moderate(id, confirm, ifVersion)).Success?
      ensures outcome.Pass? <==> id in old(entities) && (ifVersion.Some? ==> ifVersion.value == old(entities)[id].version)
      ensures outcome.Fail? ==> entities == old(entities) && outcome.error == if id in entities then VersionConflict else NotFound
      ensures outcome.Pass? ==>
        && entities.Keys == old(entities).Keys && (forall e | e in entities && e != id :: entities[e] == old(entities)[e])
        && entities[id].status == (if confirm then Active else Rejected) && entities[id].confirmed == confirm
        && entities[id].nodeId == old(entities)[id].nodeId && entities[id].entityType == old(entities)[id].entityType
    {
      if id !in entities {
        return Fail(NotFound);
      }
      var row := entities[id];
      if ifVersion.Some? && ifVersion.value != row.version {
        return Fail(VersionConflict);
      }
      var status := if confirm then Active else Rejected;
      if row.status != status || row.confirmed != confirm {
        entities := entities[id := row.(status := status, confirmed := confirm, version := row.version + 1)];
      }
      return Pass;
    }
  }
}
