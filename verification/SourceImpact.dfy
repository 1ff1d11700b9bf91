/** Deleting a source, and with it everything that rests on it (source-impact.ts,
    topicAndArtifactChanges in impact-helpers.ts). */
module SourceImpact {
  import opened Outcomes
  import opened Ordering
  import opened MutationStore
  import opened MutationLaws
  import opened Undo
  import opened StateChanges
  import opened OperationLog
  import opened OperationHistory
  import opened Cells

  // ---- who refers to whom ----

  datatype Link = Link(id: string, ref: string)

  datatype EvidenceLink = EvidenceLink(owner: string, evidence: string, chunk: string)

  /** The reference columns the planners join over, one entry a row, in the order a query
      returns them.  No plan ever writes them.  `topicCitations` and `topicClaims` speak of
      each topic's latest snapshot. */
  datatype Links = Links(
    connections: seq<Link>, documents: seq<Link>, chunks: seq<Link>, nodes: seq<Link>,
    claimEvidence: seq<EvidenceLink>, relationEvidence: seq<EvidenceLink>,
    contextItems: seq<Link>, answers: seq<Link>,
    topicCitations: seq<Link>, topicClaims: seq<Link>, artifacts: seq<Link>)

  /** The ids of the rows that refer to one of `refs`. */
  function Referring(links: seq<Link>, refs: set<string>): seq<string> {
    if links == [] then []
    else (if links[0].ref in refs then [links[0].id] else []) + Referring(links[1..], refs)
  }

  lemma {:induction false} ReferringMeans(links: seq<Link>, refs: set<string>, x: string)
    ensures x in Referring(links, refs) <==> exists l :: l in links && l.id == x && l.ref in refs
  {
    if links != [] {
      assert links == [links[0]] + links[1..];
      ReferringMeans(links[1..], refs, x);
    }
  }

  function EvidenceIn(links: seq<EvidenceLink>, chunks: set<string>): seq<EvidenceLink> {
    if links == [] then []
    else (if links[0].chunk in chunks then [links[0]] else []) + EvidenceIn(links[1..], chunks)
  }

  lemma {:induction false} EvidenceInMeans(links: seq<EvidenceLink>, chunks: set<string>, e: EvidenceLink)
    ensures e in EvidenceIn(links, chunks) <==> e in links && e.chunk in chunks
  {
    if links != [] {
      assert links == [links[0]] + links[1..];
      EvidenceInMeans(links[1..], chunks, e);
    }
  }

  function Owners(evidence: seq<EvidenceLink>): (owners: seq<string>)
    ensures |owners| == |evidence| && forall i | 0 <= i < |evidence| :: owners[i] == evidence[i].owner
  {
    seq(|evidence|, i requires 0 <= i < |evidence| => evidence[i].owner)
  }

  function DocumentsOf(links: Links, source: string): seq<string> {
    Referring(links.documents, {source})
  }

  function ChunksOf(links: Links, source: string): seq<string> {
    Referring(links.chunks, Members(DocumentsOf(links, source)))
  }

  function NodesOf(links: Links, source: string): seq<string> {
    Referring(links.nodes, {source} + Members(DocumentsOf(links, source)) + Members(ChunksOf(links, source)))
  }

  function ClaimEvidenceOf(links: Links, source: string): seq<EvidenceLink> {
    EvidenceIn(links.claimEvidence, Members(ChunksOf(links, source)))
  }

  function RelationEvidenceOf(links: Links, source: string): seq<EvidenceLink> {
    EvidenceIn(links.relationEvidence, Members(ChunksOf(links, source)))
  }

  function ClaimsOf(links: Links, source: string): seq<string> {
    UniqueSorted(Owners(ClaimEvidenceOf(links, source)))
  }

  function RelationsOf(links: Links, source: string): seq<string> {
    UniqueSorted(Owners(RelationEvidenceOf(links, source)))
  }

  function ContextsOf(links: Links, source: string): seq<string> {
    UniqueSorted(Referring(links.contextItems, {source}))
  }

  function AnswersOf(links: Links, source: string): seq<string> {
    Referring(links.answers, Members(ContextsOf(links, source)))
  }

  function TopicsOf(links: Links, source: string): seq<string> {
    UniqueSorted(Referring(links.topicCitations, {source}) +
                 Referring(links.topicClaims, Members(ClaimsOf(links, source))))
  }

  function ArtifactsOf(links: Links, topic: string): seq<string> {
    Referring(links.artifacts, {topic})
  }

  // ---- the same, row by row of the reference columns ----

  ghost predicate DocumentOf(links: Links, source: string, id: string) {
    Link(id, source) in links.documents
  }

  ghost predicate ChunkOf(links: Links, source: string, id: string) {
    exists document :: DocumentOf(links, source, document) && Link(id, document) in links.chunks
  }

  /** A node stands for the source, for one of its documents or for one of their chunks. */
  ghost predicate NodeOf(links: Links, source: string, id: string) {
    exists ref :: Link(id, ref) in links.nodes
      && (ref == source || DocumentOf(links, source, ref) || ChunkOf(links, source, ref))
  }

  ghost predicate ClaimOf(links: Links, source: string, id: string) {
    exists e :: e in links.claimEvidence && e.owner == id && ChunkOf(links, source, e.chunk)
  }

  ghost predicate RelationOf(links: Links, source: string, id: string) {
    exists e :: e in links.relationEvidence && e.owner == id && ChunkOf(links, source, e.chunk)
  }

  ghost predicate ContextOf(links: Links, source: string, id: string) {
    Link(id, source) in links.contextItems
  }

  ghost predicate AnswerOf(links: Links, source: string, id: string) {
    exists context :: ContextOf(links, source, context) && Link(id, context) in links.answers
  }

  /** Its report cites the source, or its latest snapshot holds a claim with evidence from the source. */
  ghost predicate TopicOf(links: Links, source: string, id: string) {
    Link(id, source) in links.topicCitations || HoldsClaimOf(links, source, id)
  }

  ghost predicate HoldsClaimOf(links: Links, source: string, topic: string) {
    exists claim :: ClaimOf(links, source, claim) && Link(topic, claim) in links.topicClaims
  }

  lemma RefersToOne(links: seq<Link>, ref: string, x: string)
    ensures x in Referring(links, {ref}) <==> Link(x, ref) in links
  {
    ReferringMeans(links, {ref}, x);
  }

  lemma UniqueSortedMembers(ids: seq<string>, x: string)
    ensures x in UniqueSorted(ids) <==> x in ids
  {
    assert x in UniqueSorted(ids) <==> x in Members(UniqueSorted(ids));
    assert x in ids <==> x in Members(ids);
  }

  lemma ChunksAre(links: Links, source: string, id: string)
    ensures id in ChunksOf(links, source) <==> ChunkOf(links, source, id)
  {
    ReferringMeans(links.chunks, Members(DocumentsOf(links, source)), id);
    forall d ensures d in Members(DocumentsOf(links, source)) <==> DocumentOf(links, source, d) {
      RefersToOne(links.documents, source, d);
    }
    if l :| l in links.chunks && l.id == id && l.ref in Members(DocumentsOf(links, source)) {
      assert DocumentOf(links, source, l.ref) && Link(id, l.ref) in links.chunks;
    }
  }

  lemma NodesAre(links: Links, source: string, id: string)
    ensures id in NodesOf(links, source) <==> NodeOf(links, source, id)
  {
    var refs := {source} + Members(DocumentsOf(links, source)) + Members(ChunksOf(links, source));
    ReferringMeans(links.nodes, refs, id);
    forall ref
      ensures ref in refs <==> ref == source || DocumentOf(links, source, ref) || ChunkOf(links, source, ref)
    {
      RefersToOne(links.documents, source, ref);
      ChunksAre(links, source, ref);
    }
    if l :| l in links.nodes && l.id == id && l.ref in refs {
      assert Link(id, l.ref) in links.nodes;
    }
  }

  lemma OwnersAre(links: Links, source: string, evidence: seq<EvidenceLink>, id: string)
    ensures id in UniqueSorted(Owners(EvidenceIn(evidence, Members(ChunksOf(links, source))))) <==>
            exists e :: e in evidence && e.owner == id && ChunkOf(links, source, e.chunk)
  {
    var found := EvidenceIn(evidence, Members(ChunksOf(links, source)));
    UniqueSortedMembers(Owners(found), id);
    forall e ensures e in found <==> e in evidence && ChunkOf(links, source, e.chunk) {
      EvidenceInMeans(evidence, Members(ChunksOf(links, source)), e);
      ChunksAre(links, source, e.chunk);
    }
    if id in Owners(found) {
      var i :| 0 <= i < |found| && Owners(found)[i] == id;
      assert found[i] in found;
    }
    if e :| e in found && e.owner == id {
      var i :| 0 <= i < |found| && found[i] == e;
      assert Owners(found)[i] == id;
    }
  }

  lemma ContextsAre(links: Links, source: string, id: string)
    ensures id in ContextsOf(links, source) <==> ContextOf(links, source, id)
  {
    UniqueSortedMembers(Referring(links.contextItems, {source}), id);
    RefersToOne(links.contextItems, source, id);
  }

  lemma AnswersAre(links: Links, source: string, id: string)
    ensures id in AnswersOf(links, source) <==> AnswerOf(links, source, id)
  {
    ReferringMeans(links.answers, Members(ContextsOf(links, source)), id);
    forall c ensures c in Members(ContextsOf(links, source)) <==> ContextOf(links, source, c) {
      ContextsAre(links, source, c);
    }
    if l :| l in links.answers && l.id == id && l.ref in Members(ContextsOf(links, source)) {
      assert ContextOf(links, source, l.ref) && Link(id, l.ref) in links.answers;
    }
  }

  lemma TopicsAre(links: Links, source: string, id: string)
    ensures id in TopicsOf(links, source) <==> TopicOf(links, source, id)
  {
    var claims := Members(ClaimsOf(links, source));
    UniqueSortedMembers(Referring(links.topicCitations, {source}) + Referring(links.topicClaims, claims), id);
    RefersToOne(links.topicCitations, source, id);
    ReferringMeans(links.topicClaims, claims, id);
    forall c ensures c in claims <==> ClaimOf(links, source, c) {
      OwnersAre(links, source, links.claimEvidence, c);
    }
    if l :| l in links.topicClaims && l.id == id && l.ref in claims {
      assert ClaimOf(links, source, l.ref) && Link(id, l.ref) in links.topicClaims;
    }
  }

  // ---- what the planner wants of each row ----

  function SourceCell(id: string): Cell {
    Cell(Source, id, [id], {State, Version, DeletedAt}, State, "deleted", "deleted", {}, map[DeletedAt := NOW])
  }

  function ConnectionCell(id: string): Cell {
    Cell(Connection, id, [id], {State, Revision}, State, "detached", "detached", {"detached", "deleted"}, map[])
  }

  function DocumentCell(id: string): Cell {
    Cell(Document, id, [id], {State, Version, DeletedAt}, State, "deleted", "tombstoned", {}, map[DeletedAt := NOW])
  }

  function ChunkCell(id: string): Cell {
    Cell(Chunk, id, [id], {State, TombstonedAt}, State, "tombstoned", "tombstoned", {}, map[TombstonedAt := NOW])
  }

  function NodeCell(id: string): Cell {
    Cell(GraphNode, id, [id], {Status, Version}, Status, "stale", "invalidated", {"deleted", "rejected", "redirected"}, map[])
  }

  function EvidenceCell(kind: Kind, e: EvidenceLink): Cell {
    Cell(kind, JoinIds(e.owner, e.evidence), [e.owner, e.evidence], {State}, State, "stale", "invalidated", {}, map[])
  }

  function ClaimCell(id: string): Cell {
    Cell(Claim, id, [id], {Status, Version}, Status, "stale", "invalidated", {"deleted", "rejected", "superseded"}, map[])
  }

  function RelationCell(id: string): Cell {
    Cell(Relation, id, [id], {Status, Version}, Status, "stale", "invalidated", {"deleted", "rejected", "deprecated"}, map[])
  }

  function ContextCell(id: string, reason: string): Cell {
    Cell(EvidenceContext, id, [id], {State, StaleAt, StaleReason}, State, "stale", "invalidated", {},
         map[StaleAt := NOW, StaleReason := Text(reason)])
  }

  function AnswerCell(id: string, reason: string): Cell {
    Cell(Answer, id, [id], {CacheState, StaleAt, StaleReason}, CacheState, "stale", "invalidated", {},
         map[StaleAt := NOW, StaleReason := Text(reason)])
  }

  function TopicCell(id: string, reason: string, review: bool): Cell {
    Cell(Topic, id, [id], {Status, Version, StaleAt, StaleReason}, Status, if review then "needs_review" else "stale",
         "invalidated", {"deleted"}, map[StaleAt := NOW, StaleReason := Text(reason)])
  }

  function ArtifactCell(id: string, reason: string): Cell {
    Cell(Artifact, id, [id], {Status, Version, StaleReason}, Status, "stale", "invalidated", {"deleted"},
         map[StaleReason := Text(reason)])
  }

  function EachCell(ids: seq<string>, make: string -> Cell): (cells: seq<Cell>)
    ensures |cells| == |ids| && forall i | 0 <= i < |ids| :: cells[i] == make(ids[i])
  {
    seq(|ids|, i requires 0 <= i < |ids| => make(ids[i]))
  }

  function EachEvidenceCell(kind: Kind, evidence: seq<EvidenceLink>): (cells: seq<Cell>)
    ensures |cells| == |evidence| && forall i | 0 <= i < |evidence| :: cells[i] == EvidenceCell(kind, evidence[i])
  {
    seq(|evidence|, i requires 0 <= i < |evidence| => EvidenceCell(kind, evidence[i]))
  }

  function ArtifactCells(ids: seq<string>, reason: string): (cells: seq<Cell>)
    ensures |cells| == |ids| && forall i | 0 <= i < |ids| :: cells[i] == ArtifactCell(ids[i], reason)
  {
    EachCell(ids, id => ArtifactCell(id, reason))
  }

  function ContextCells(ids: seq<string>, reason: string): (cells: seq<Cell>)
    ensures |cells| == |ids| && forall i | 0 <= i < |ids| :: cells[i] == ContextCell(ids[i], reason)
  {
    EachCell(ids, id => ContextCell(id, reason))
  }

  function AnswerCells(ids: seq<string>, reason: string): (cells: seq<Cell>)
    ensures |cells| == |ids| && forall i | 0 <= i < |ids| :: cells[i] == AnswerCell(ids[i], reason)
  {
    EachCell(ids, id => AnswerCell(id, reason))
  }

  predicate TopicGone(rows: Store, topic: string) {
    Key(Topic, [topic]) !in rows || Lookup(rows[Key(Topic, [topic])], Status) == Text("deleted")
  }

  /** A topic and then its artifacts; a deleted topic is passed over together with them. */
  function OneTopicCells(rows: Store, links: Links, topic: string, reason: string, review: bool): seq<Cell> {
    if TopicGone(rows, topic) then []
    else [TopicCell(topic, reason, review)] + ArtifactCells(ArtifactsOf(links, topic), reason)
  }

  function TopicCells(rows: Store, links: Links, topics: seq<string>, reason: string, review: bool): seq<Cell> {
    if topics == [] then []
    else TopicCells(rows, links, topics[..|topics| - 1], reason, review)
         + OneTopicCells(rows, links, topics[|topics| - 1], reason, review)
  }

  function Reason(source: string): string {
    "source_deleted:" + source
  }

  /** The cells of every loop but the last, in order. */
  function DirectCells(links: Links, source: string): seq<seq<Cell>> {
    [ [SourceCell(source)],
      EachCell(Referring(links.connections, {source}), ConnectionCell),
      EachCell(DocumentsOf(links, source), DocumentCell),
      EachCell(ChunksOf(links, source), ChunkCell),
      EachCell(NodesOf(links, source), NodeCell),
      EachEvidenceCell(ClaimEvidence, ClaimEvidenceOf(links, source)),
      EachEvidenceCell(RelationEvidence, RelationEvidenceOf(links, source)),
      EachCell(ClaimsOf(links, source), ClaimCell),
      EachCell(RelationsOf(links, source), RelationCell),
      ContextCells(ContextsOf(links, source), Reason(source)),
      AnswerCells(AnswersOf(links, source), Reason(source)) ]
  }

  function Flatten(parts: seq<seq<Cell>>): seq<Cell> {
    if parts == [] then [] else Flatten(parts[..|parts| - 1]) + parts[|parts| - 1]
  }

  function SourceCells(rows: Store, links: Links, source: string): seq<Cell> {
    Flatten(DirectCells(links, source)) + TopicCells(rows, links, TopicsOf(links, source), Reason(source), true)
  }

  // ---- the planner ----

  datatype PlannerError = NotFound | AlreadyDeleted | StateInvalid

  function ReachedFrom(rows: Store, links: Links, topic: string): seq<string> {
    if TopicGone(rows, topic) then [] else ArtifactsOf(links, topic)
  }

  /** The artifacts of the topics that are not passed over. */
  function ArtifactsReached(rows: Store, links: Links, topics: seq<string>): seq<string> {
    if topics == [] then []
    else
      var last := topics[|topics| - 1];
      ArtifactsReached(rows, links, topics[..|topics| - 1]) + ReachedFrom(rows, links, last)
  }

  lemma {:induction false} ArtifactsReachedMeans(rows: Store, links: Links, topics: seq<string>, a: string)
    ensures a in ArtifactsReached(rows, links, topics) <==>
            exists t :: t in topics && !TopicGone(rows, t) && a in ArtifactsOf(links, t)
    decreases |topics|
  {
    if topics != [] {
      var last := topics[|topics| - 1];
      assert topics == topics[..|topics| - 1] + [last];
      ArtifactsReachedMeans(rows, links, topics[..|topics| - 1], a);
    }
  }

  lemma TopicCellsStep(rows: Store, links: Links, topics: seq<string>, i: nat, reason: string, review: bool)
    requires i < |topics|
    ensures MakeChanges(rows, TopicCells(rows, links, topics[..i + 1], reason, review))
            == MakeChanges(rows, TopicCells(rows, links, topics[..i], reason, review))
               + MakeChanges(rows, OneTopicCells(rows, links, topics[i], reason, review))
    ensures ArtifactsReached(rows, links, topics[..i + 1])
            == ArtifactsReached(rows, links, topics[..i])
               + ReachedFrom(rows, links, topics[i])
  {
    assert topics[..i + 1][..i] == topics[..i];
    MakeChangesConcat(rows, TopicCells(rows, links, topics[..i], reason, review),
                      OneTopicCells(rows, links, topics[i], reason, review));
  }

  lemma OneTopicChanges(rows: Store, links: Links, topic: string, reason: string, review: bool)
    requires !TopicGone(rows, topic)
    ensures MakeChanges(rows, OneTopicCells(rows, links, topic, reason, review))
            == MakeChanges(rows, [TopicCell(topic, reason, review)])
               + MakeChanges(rows, ArtifactCells(ArtifactsOf(links, topic), reason))
  {
    MakeChangesConcat(rows, [TopicCell(topic, reason, review)], ArtifactCells(ArtifactsOf(links, topic), reason));
  }

  /** The body of the topic loop. */
  method AppendTopic(rows: Store, links: Links, topic: string, reason: string, review: bool,
                     earlier: seq<Change>, reached: seq<string>)
    returns (changes: seq<Change>, artifacts: seq<string>)
    ensures changes == earlier + MakeChanges(rows, OneTopicCells(rows, links, topic, reason, review))
    ensures artifacts == reached + ReachedFrom(rows, links, topic)
  {
    if TopicGone(rows, topic) {
      return earlier, reached;
    }
    OneTopicChanges(rows, links, topic, reason, review);
    changes := AppendChanges(rows, [TopicCell(topic, reason, review)], earlier);
    changes := AppendChanges(rows, ArtifactCells(ArtifactsOf(links, topic), reason), changes);
    artifacts := reached + ArtifactsOf(links, topic);
  }

  method TopicAndArtifactChanges(rows: Store, links: Links, topicIds: seq<string>, reason: string, review: bool)
    returns (changes: seq<Change>, artifactIds: seq<string>)
    ensures changes == MakeChanges(rows, TopicCells(rows, links, UniqueSorted(topicIds), reason, review))
    ensures artifactIds == UniqueSorted(ArtifactsReached(rows, links, UniqueSorted(topicIds)))
  {
    var topics := UniqueSorted(topicIds);
    changes := [];
    var artifacts := [];
    for i := 0 to |topics|
      invariant changes == MakeChanges(rows, TopicCells(rows, links, topics[..i], reason, review))
      invariant artifacts == ArtifactsReached(rows, links, topics[..i])
    {
      TopicCellsStep(rows, links, topics, i, reason, review);
      changes, artifacts := AppendTopic(rows, links, topics[i], reason, review, changes, artifacts);
    }
    assert topics[..|topics|] == topics;
    artifactIds := UniqueSorted(artifacts);
  }

  lemma {:induction false} FlattenPrefix(parts: seq<seq<Cell>>, i: nat)
    requires i < |parts|
    ensures Flatten(parts[..i + 1]) == Flatten(parts[..i]) + parts[i]
  {
    assert parts[..i + 1][..i] == parts[..i];
  }
}
