/** What deleting an entity, a claim or a topic comes to once its plan applies (resource-impact.ts),
    row by row of the reference columns: what it reaches is settled, and nothing else changes. */
module ResourceDelete {
  import opened Outcomes
  import opened Ordering
  import opened MutationStore
  import opened MutationLaws
  import opened OperationLog
  import opened Cells
  import opened SourceImpact
  import opened SourceDelete
  import opened ResourceImpact

  ghost predicate EdgeAt(edges: seq<Edge>, node: string, id: string) {
    exists e :: e in edges && e.id == id && (e.subjectNode == node || e.objectNode == node)
  }

  lemma {:induction false} EdgesAtAre(edges: seq<Edge>, node: string, id: string)
    ensures id in EdgesAt(edges, node) <==> EdgeAt(edges, node, id)
  {
    if edges != [] {
      assert edges == [edges[0]] + edges[1..];
      EdgesAtAre(edges[1..], node, id);
      if EdgeAt(edges[1..], node, id) {
        var e :| e in edges[1..] && e.id == id && (e.subjectNode == node || e.objectNode == node);
        assert e in edges;
      }
    }
  }

  /** The topic's latest snapshot holds a claim at the node. */
  ghost predicate HoldsClaimAt(links: Links, claims: seq<Edge>, node: string, topic: string) {
    exists claim :: EdgeAt(claims, node, claim) && Link(topic, claim) in links.topicClaims
  }

  lemma TopicsAtAre(links: Links, claims: seq<Edge>, node: string, t: string)
    ensures t in TopicsOfClaims(links, EdgesAt(claims, node)) <==> HoldsClaimAt(links, claims, node, t)
  {
    var ids := EdgesAt(claims, node);
    UniqueSortedMembers(Referring(links.topicClaims, Members(ids)), t);
    ReferringMeans(links.topicClaims, Members(ids), t);
    forall c ensures c in Members(ids) <==> EdgeAt(claims, node, c) {
      EdgesAtAre(claims, node, c);
    }
    if l :| l in links.topicClaims && l.id == t && l.ref in Members(ids) {
      assert EdgeAt(claims, node, l.ref) && Link(t, l.ref) in links.topicClaims;
    }
  }

  lemma TopicsHoldingAre(links: Links, claim: string, t: string)
    ensures t in TopicsOfClaims(links, [claim]) <==> Link(t, claim) in links.topicClaims
  {
    assert Members([claim]) == {claim};
    UniqueSortedMembers(Referring(links.topicClaims, {claim}), t);
    RefersToOne(links.topicClaims, claim, t);
  }

  lemma NearlyCompleteSettles(c: Cell)
    requires NearlyComplete(c)
    ensures Settleable(c)
  {
  }

  /** The topic is reached through a claim, or it is an artifact of such a topic. */
  ghost predicate TopicSide(links: Links, topics: set<string>, k: Key) {
    || (k.kind.Topic? && exists t :: t in topics && k.ids == [t])
    || (k.kind.Artifact? && exists t, a :: t in topics && Link(a, t) in links.artifacts && k.ids == [a])
  }

  lemma TopicSideOf(links: Links, topics: seq<string>, c: Cell)
    requires TopicOrArtifactOf(links, topics, c)
    ensures TopicSide(links, Members(topics), KeyOfCell(c))
  {
    if c.kind.Topic? {
      var t :| t in topics && c.selector == [t];
      assert t in Members(topics);
    } else {
      var t, a :| t in topics && a in ArtifactsOf(links, t) && c.selector == [a];
      RefersToOne(links.artifacts, t, a);
      assert t in Members(topics);
    }
  }

  /** A plan of direct cells followed by topics, once applied: every topic is reviewed, and a row that
      changed belongs to a direct cell or to the topics. */
  lemma MixedPlanSettles(rows: Store, links: Links, direct: seq<Cell>, topics: seq<string>, reason: string, now: Time)
    requires SchemaStore(rows) && UniqueIds(links.artifacts) && NonEmptyIds(links.topicClaims)
    requires StrictlySorted(topics) && "" !in topics
    requires DistinctCells(direct) && forall c | c in direct :: NearlyComplete(c) && !c.kind.Topic? && !c.kind.Artifact?
    requires var cells := direct + TopicCells(rows, links, topics, reason, true);
      ApplyAll(rows, MakeChanges(rows, cells), now).Success?
    ensures var out := ApplyAll(rows, MakeChanges(rows, direct + TopicCells(rows, links, topics, reason, true)), now).value.0;
      && out.Keys == rows.Keys
      && (forall c | c in direct :: Settled(rows, out, c))
      && (forall t | t in topics :: TopicReviewed(rows, out, links, t, reason))
      && forall k | k in rows && out[k] != rows[k] ::
           (exists c :: c in direct && KeyOfCell(c) == k) || TopicSide(links, Members(topics), k)
  {
    var below := TopicCells(rows, links, topics, reason, true);
    SortedHasNoDuplicates(topics);
    TopicsBelowAreGood(rows, links, topics, reason);
    TopicCellsAreGood(rows, links, topics, reason, true);
    KindsKeepApart(direct, below);
    forall c | c in direct + below ensures Settleable(c) {
      if c in below {
        CompleteIsNearlyComplete(c);
      }
      NearlyCompleteSettles(c);
    }
    AppliedPlanCascades(rows, direct + below, now);
    var out := ApplyAll(rows, MakeChanges(rows, direct + below), now).value.0;
    forall c | c in direct ensures Settled(rows, out, c) {
      assert c in direct + below;
    }
    forall t | t in topics ensures TopicReviewed(rows, out, links, t, reason) {
      TopicFollows(rows, out, links, direct, topics, reason, t);
    }
    forall k | k in rows && out[k] != rows[k] && !exists c :: c in direct && KeyOfCell(c) == k
      ensures TopicSide(links, Members(topics), k)
    {
      var c :| c in direct + below && KeyOfCell(c) == k;
      TopicSideOf(links, topics, c);
    }
  }

  // ---- an entity ----

  ghost predicate EntityReaches(links: Links, entity: string, node: string, relations: seq<Edge>, claims: seq<Edge>, k: Key) {
    match k.kind
    case Entity => k.ids == [entity]
    case GraphNode => k.ids == [node]
    case Relation => exists id :: EdgeAt(relations, node, id) && k.ids == [id]
    case Claim => exists id :: EdgeAt(claims, node, id) && k.ids == [id]
    case Topic => exists t :: HoldsClaimAt(links, claims, node, t) && k.ids == [t]
    case Artifact => exists t, a :: HoldsClaimAt(links, claims, node, t) && Link(a, t) in links.artifacts && k.ids == [a]
    case _ => false
  }

  /** The entity and its node are deleted; the relations and claims at the node are stale, and the topics
      that hold such a claim are up for review. */
  ghost predicate EntityDeletionSettled(rows: Store, out: Store, links: Links, entity: string, node: string,
                                        relations: seq<Edge>, claims: seq<Edge>)
  {
    && Settles(rows, out, Key(Entity, [entity]), Status, "deleted", {}, map[])
    && Settles(rows, out, Key(GraphNode, [node]), Status, "deleted", {}, map[DeletedAt := NOW])
    && (forall id | EdgeAt(relations, node, id) ::
          Settles(rows, out, Key(Relation, [id]), Status, "stale", {"deleted", "rejected", "deprecated"}, map[]))
    && (forall id | EdgeAt(claims, node, id) ::
          Settles(rows, out, Key(Claim, [id]), Status, "stale", {"deleted", "rejected", "superseded"}, map[]))
    && (forall t | HoldsClaimAt(links, claims, node, t) :: TopicReviewed(rows, out, links, t, "entity_deleted:" + entity))
    && out.Keys == rows.Keys
    && forall k | k in rows && out[k] != rows[k] :: EntityReaches(links, entity, node, relations, claims, k)
  }

  lemma EntityDirectCells(entity: string, node: string, relations: seq<Edge>, claims: seq<Edge>)
    ensures var direct := EntityDirect(entity, node, relations, claims);
      && EntityCell(entity) in direct && DeletedCell(GraphNode, node) in direct
      && (forall id | EdgeAt(relations, node, id) :: RelationCell(id) in direct)
      && (forall id | EdgeAt(claims, node, id) :: ClaimCell(id) in direct)
  {
    var direct := EntityDirect(entity, node, relations, claims);
    assert direct[0] == EntityCell(entity) && direct[1] == DeletedCell(GraphNode, node);
    forall id | EdgeAt(relations, node, id) ensures RelationCell(id) in direct {
      EdgesAtAre(relations, node, id);
      MakesIn(EdgesAt(relations, node), RelationCell, id);
    }
    forall id | EdgeAt(claims, node, id) ensures ClaimCell(id) in direct {
      EdgesAtAre(claims, node, id);
      MakesIn(EdgesAt(claims, node), ClaimCell, id);
    }
  }

  lemma EntityDirectReaches(links: Links, entity: string, node: string, relations: seq<Edge>, claims: seq<Edge>, c: Cell)
    requires c in EntityDirect(entity, node, relations, claims)
    ensures EntityReaches(links, entity, node, relations, claims, KeyOfCell(c))
  {
    if c in EachCell(EdgesAt(relations, node), RelationCell) {
      var id := MadeFrom(EdgesAt(relations, node), RelationCell, c);
      EdgesAtAre(relations, node, id);
    } else if c in EachCell(EdgesAt(claims, node), ClaimCell) {
      var id := MadeFrom(EdgesAt(claims, node), ClaimCell, c);
      EdgesAtAre(claims, node, id);
    }
  }

  lemma EntityTopicsReached(links: Links, entity: string, node: string, relations: seq<Edge>, claims: seq<Edge>, k: Key)
    requires TopicSide(links, Members(TopicsOfClaims(links, EdgesAt(claims, node))), k)
    ensures EntityReaches(links, entity, node, relations, claims, k)
  {
    forall t ensures t in TopicsOfClaims(links, EdgesAt(claims, node)) <==> HoldsClaimAt(links, claims, node, t) {
      TopicsAtAre(links, claims, node, t);
    }
  }

  /** A plan to delete an entity, when it applies, settles what it reaches and nothing else. */
  lemma EntityDeleteSettles(rows: Store, links: Links, entity: string, node: string,
                            relations: seq<Edge>, claims: seq<Edge>, now: Time)
    requires SchemaStore(rows) && UniqueEdges(relations) && UniqueEdges(claims)
    requires UniqueIds(links.artifacts) && NonEmptyIds(links.topicClaims) && entity != "" && node != ""
    requires ApplyAll(rows, MakeChanges(rows, EntityDeleteCells(rows, links, entity, node, relations, claims)), now).Success?
    ensures EntityDeletionSettled(
      rows, ApplyAll(rows, MakeChanges(rows, EntityDeleteCells(rows, links, entity, node, relations, claims)), now).value.0,
      links, entity, node, relations, claims)
  {
    var direct := EntityDirect(entity, node, relations, claims);
    var topics := TopicsOfClaims(links, EdgesAt(claims, node));
    EntityDirectIsGood(entity, node, relations, claims);
    NoEmptyTopic(links, EdgesAt(claims, node));
    MixedPlanSettles(rows, links, direct, topics, EntityReason(entity), now);
    EntityDirectCells(entity, node, relations, claims);
    var out := ApplyAll(rows, MakeChanges(rows, EntityDeleteCells(rows, links, entity, node, relations, claims)), now).value.0;
    forall id | EdgeAt(relations, node, id) ensures RowSettles(rows, out, RelationCell(id)) {
    }
    forall id | EdgeAt(claims, node, id) ensures RowSettles(rows, out, ClaimCell(id)) {
    }
    forall t | HoldsClaimAt(links, claims, node, t) ensures TopicReviewed(rows, out, links, t, "entity_deleted:" + entity) {
      TopicsAtAre(links, claims, node, t);
    }
    forall k | k in rows && out[k] != rows[k] ensures EntityReaches(links, entity, node, relations, claims, k) {
      if c :| c in direct && KeyOfCell(c) == k {
        EntityDirectReaches(links, entity, node, relations, claims, c);
      } else {
        EntityTopicsReached(links, entity, node, relations, claims, k);
      }
    }
  }

  // ---- a claim ----

  ghost predicate ClaimReaches(links: Links, claim: string, node: string, k: Key) {
    match k.kind
    case Claim => k.ids == [claim]
    case GraphNode => k.ids == [node]
    case Topic => exists t :: Link(t, claim) in links.topicClaims && k.ids == [t]
    case Artifact => exists t, a :: Link(t, claim) in links.topicClaims && Link(a, t) in links.artifacts && k.ids == [a]
    case _ => false
  }

  ghost predicate ClaimDeletionSettled(rows: Store, out: Store, links: Links, claim: string, node: string) {
    && Settles(rows, out, Key(Claim, [claim]), Status, "deleted", {}, map[DeletedAt := NOW])
    && Settles(rows, out, Key(GraphNode, [node]), Status, "deleted", {}, map[DeletedAt := NOW])
    && (forall t | Link(t, claim) in links.topicClaims :: TopicReviewed(rows, out, links, t, "claim_deleted:" + claim))
    && out.Keys == rows.Keys
    && forall k | k in rows && out[k] != rows[k] :: ClaimReaches(links, claim, node, k)
  }

  lemma ClaimSideReached(links: Links, claim: string, node: string, k: Key)
    requires (exists c :: c in ClaimDirect(claim, node) && KeyOfCell(c) == k)
             || TopicSide(links, Members(TopicsOfClaims(links, [claim])), k)
    ensures ClaimReaches(links, claim, node, k)
  {
    forall t ensures t in TopicsOfClaims(links, [claim]) <==> Link(t, claim) in links.topicClaims {
      TopicsHoldingAre(links, claim, t);
    }
  }

  /** A plan to delete a claim, when it applies: the claim and its node are deleted, and the topics that
      hold it are up for review. */
  lemma ClaimDeleteSettles(rows: Store, links: Links, claim: string, node: string, now: Time)
    requires SchemaStore(rows) && UniqueIds(links.artifacts) && NonEmptyIds(links.topicClaims) && claim != "" && node != ""
    requires ApplyAll(rows, MakeChanges(rows, ClaimDeleteCells(rows, links, claim, node)), now).Success?
    ensures ClaimDeletionSettled(
      rows, ApplyAll(rows, MakeChanges(rows, ClaimDeleteCells(rows, links, claim, node)), now).value.0, links, claim, node)
  {
    var direct, topics := ClaimDirect(claim, node), TopicsOfClaims(links, [claim]);
    DeletedCellIsNearlyComplete(Claim, claim);
    DeletedCellIsNearlyComplete(GraphNode, node);
    NoEmptyTopic(links, [claim]);
    MixedPlanSettles(rows, links, direct, topics, ClaimReason(claim), now);
    var out := ApplyAll(rows, MakeChanges(rows, ClaimDeleteCells(rows, links, claim, node)), now).value.0;
    assert direct[0] in direct && direct[1] in direct;
    forall t | Link(t, claim) in links.topicClaims ensures TopicReviewed(rows, out, links, t, "claim_deleted:" + claim) {
      TopicsHoldingAre(links, claim, t);
    }
    forall k | k in rows && out[k] != rows[k] ensures ClaimReaches(links, claim, node, k) {
      ClaimSideReached(links, claim, node, k);
    }
  }

  // ---- a topic ----

  ghost predicate TopicDeletionSettled(rows: Store, out: Store, links: Links, topic: string) {
    && Settles(rows, out, Key(Topic, [topic]), Status, "deleted", {}, map[DeletedAt := NOW])
    && (forall a | Link(a, topic) in links.artifacts ::
          Settles(rows, out, Key(Artifact, [a]), Status, "deleted", {"deleted"}, map[DeletedAt := NOW]))
    && out.Keys == rows.Keys
    && forall k | k in rows && out[k] != rows[k] ::
         k == Key(Topic, [topic]) || exists a :: Link(a, topic) in links.artifacts && k == Key(Artifact, [a])
  }

  lemma TopicDeleteCellsAreGood(links: Links, topic: string)
    requires UniqueIds(links.artifacts) && topic != ""
    ensures DistinctCells(TopicDeleteCells(links, topic))
    ensures forall c | c in TopicDeleteCells(links, topic) :: Settleable(c)
  {
    var ids := ArtifactsOf(links, topic);
    ReferringIsUnique(links.artifacts, {topic});
    DeletedCellIsNearlyComplete(Topic, topic);
    DeletedArtifactsAreGood(ids);
    KindsKeepApart([DeletedCell(Topic, topic)], EachCell(ids, DeletedArtifactCell));
    forall c | c in TopicDeleteCells(links, topic) ensures Settleable(c) {
      NearlyCompleteSettles(c);
    }
  }

  /** A plan to delete a topic, when it applies: the topic and its artifacts are deleted. */
  lemma TopicDeleteSettles(rows: Store, links: Links, topic: string, now: Time)
    requires SchemaStore(rows) && UniqueIds(links.artifacts) && topic != ""
    requires ApplyAll(rows, MakeChanges(rows, TopicDeleteCells(links, topic)), now).Success?
    ensures TopicDeletionSettled(
      rows, ApplyAll(rows, MakeChanges(rows, TopicDeleteCells(links, topic)), now).value.0, links, topic)
  {
    var cells, ids := TopicDeleteCells(links, topic), ArtifactsOf(links, topic);
    TopicDeleteCellsAreGood(links, topic);
    AppliedPlanCascades(rows, cells, now);
    var out := ApplyAll(rows, MakeChanges(rows, cells), now).value.0;
    assert cells[0] == DeletedCell(Topic, topic) && cells[0] in cells;
    forall a | Link(a, topic) in links.artifacts ensures RowSettles(rows, out, DeletedArtifactCell(a)) {
      RefersToOne(links.artifacts, topic, a);
      MakesIn(ids, DeletedArtifactCell, a);
      assert DeletedArtifactCell(a) in cells;
    }
    forall k | k in rows && out[k] != rows[k]
      ensures k == Key(Topic, [topic]) || exists a :: Link(a, topic) in links.artifacts && k == Key(Artifact, [a])
    {
      var c :| c in cells && KeyOfCell(c) == k;
      if c in EachCell(ids, DeletedArtifactCell) {
        var a := MadeFrom(ids, DeletedArtifactCell, c);
        RefersToOne(links.artifacts, topic, a);
      }
    }
  }
}
