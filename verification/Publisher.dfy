/** Publishing documents as revisions made of chunks (knowledge-publisher.ts), and when the chunks
    that are active are those of the current revisions. Nothing else lists chunks for embedding. */
module Publisher {
  import opened Outcomes
  import opened Ordering
  import opened VectorIndex
  import opened VectorSpaces

  datatype Revision = Revision(snapshot: string, fingerprint: string, blob: string, chunkIds: seq<string>)

  /** `current` is the position of the current revision. */
  datatype Document = Document(sourceId: string, revisions: seq<Revision>, current: Option<nat>, active: bool)

  datatype StoredChunk = StoredChunk(contentHash: string, active: bool, documentId: string)

  datatype Library = Library(documents: map<string, Document>, chunks: map<string, StoredChunk>)

  /** A chunk of a draft after alignment: one of the current revision's with the same content, or new. */
  datatype Aligned = Aligned(id: string, contentHash: string, exact: bool)

  datatype Draft = Draft(documentId: string, sourceId: string, snapshot: string, fingerprint: string, blob: string,
                         aligned: seq<Aligned>)

  predicate DocumentOk(d: Document) {
    d.current.Some? ==> d.current.value < |d.revisions|
  }

  function CurrentIds(d: Document): seq<string>
    requires DocumentOk(d)
  {
    if d.current.Some? then d.revisions[d.current.value].chunkIds else []
  }

  /** What the schema keeps: chunks have documents, revisions have their document's chunks. */
  ghost predicate Stored(lib: Library) {
    && (forall d | d in lib.documents :: DocumentOk(lib.documents[d]))
    && (forall c | c in lib.chunks :: lib.chunks[c].documentId in lib.documents)
    && (forall d, i, c | d in lib.documents && 0 <= i < |lib.documents[d].revisions| && c in lib.documents[d].revisions[i].chunkIds ::
          c in lib.chunks && lib.chunks[c].documentId == d)
  }

  /** The chunk belongs to the current revision of an active document. */
  predicate InCurrent(lib: Library, id: string) {
    && id in lib.chunks && lib.chunks[id].documentId in lib.documents
    && var d := lib.documents[lib.chunks[id].documentId];
    d.active && DocumentOk(d) && id in CurrentIds(d)
  }

  /** The chunks as the vector spaces see them. */
  function ChunksOf(lib: Library): Chunks
    requires forall c | c in lib.chunks :: lib.chunks[c].documentId in lib.documents
  {
    map c | c in lib.chunks ::
      Chunk(lib.chunks[c].contentHash, lib.chunks[c].active, InCurrent(lib, c), lib.documents[lib.chunks[c].documentId].sourceId)
  }

  // ---- publishing ----

  function DocumentFor(lib: Library, d: Draft): Document {
    if d.documentId in lib.documents then lib.documents[d.documentId] else Document(d.sourceId, [], None, true)
  }

  predicate SameRun(r: Revision, d: Draft) {
    r.snapshot == d.snapshot && r.fingerprint == d.fingerprint
  }

  function RevisionOf(revisions: seq<Revision>, d: Draft): (i: nat)
    ensures i <= |revisions| && (i < |revisions| ==> SameRun(revisions[i], d))
    ensures forall j | 0 <= j < i :: !SameRun(revisions[j], d)
  {
    if revisions == [] || SameRun(revisions[0], d) then 0 else 1 + RevisionOf(revisions[1..], d)
  }

  /** The revision that is made current again instead of a new one: the current one, if the content
      has not changed, or the one this snapshot was published as before. */
  function Reused(doc: Document, d: Draft): (r: Option<nat>)
    requires DocumentOk(doc)
    ensures r.Some? ==> r.value < |doc.revisions|
  {
    if doc.current.Some? && doc.revisions[doc.current.value].blob == d.blob
       && doc.revisions[doc.current.value].fingerprint == d.fingerprint then doc.current
    else
      var i := RevisionOf(doc.revisions, d);
      if i < |doc.revisions| then Some(i) else None
  }

  function Ids(aligned: seq<Aligned>): (ids: seq<string>)
    ensures |ids| == |aligned| && forall i | 0 <= i < |ids| :: ids[i] == aligned[i].id
  {
    seq(|aligned|, i requires 0 <= i < |aligned| => aligned[i].id)
  }

  /** activateDocument: the document's row alone. */
  function Activated(lib: Library, id: string, doc: Document, revision: nat): Library {
    lib.(documents := lib.documents[id := doc.(current := Some(revision), active := true)])
  }

  function HashOf(aligned: seq<Aligned>, id: string): string
    requires id in Ids(aligned)
  {
    if aligned[0].id == id then aligned[0].contentHash else HashOf(aligned[1..], id)
  }

  /** The chunks of the new revision are active, and those of the one before that are not in it are
      tombstoned. */
  function Realigned(chunks: map<string, StoredChunk>, d: Draft, previous: seq<string>): map<string, StoredChunk> {
    map c | c in chunks.Keys + (set i | i in Ids(d.aligned)) ::
      if c in Ids(d.aligned) then StoredChunk(HashOf(d.aligned, c), true, d.documentId)
      else if c in previous then chunks[c].(active := false)
      else chunks[c]
  }

  function Published(lib: Library, d: Draft): Library
    requires DocumentOk(DocumentFor(lib, d)) && DraftOk(lib, d)
  {
    var doc := DocumentFor(lib, d);
    match Reused(doc, d)
    case Some(i) => Activated(lib, d.documentId, doc, i)
    case None =>
      var revision := Revision(d.snapshot, d.fingerprint, d.blob, Ids(d.aligned));
      var more := lib.(chunks := Realigned(lib.chunks, d, CurrentIds(doc)));
      Activated(more, d.documentId, doc.(revisions := doc.revisions + [revision]), |doc.revisions|)
  }

  /** What alignment guarantees where a new revision is made: each chunk once, an exact one is of the
      current revision and keeps its content, and any other has a new id. */
  predicate DraftOk(lib: Library, d: Draft) {
    && DocumentOk(DocumentFor(lib, d))
    && (Reused(DocumentFor(lib, d), d).None? ==> AlignedOk(lib, d))
  }

  predicate AlignedOk(lib: Library, d: Draft)
    requires DocumentOk(DocumentFor(lib, d))
  {
    && (forall i, j | 0 <= i < j < |d.aligned| :: d.aligned[i].id != d.aligned[j].id)
    && forall a | a in d.aligned ::
         if a.exact then a.id in CurrentIds(DocumentFor(lib, d)) && a.id in lib.chunks && lib.chunks[a.id].contentHash == a.contentHash
         else a.id !in lib.chunks
  }

  /** tombstoneMissingDocuments. */
  function WithoutMissing(lib: Library, sourceId: string, present: set<string>): Library {
    var gone := set d | d in lib.documents && lib.documents[d].sourceId == sourceId && lib.documents[d].active && d !in present;
    Library(map d | d in lib.documents :: if d in gone then lib.documents[d].(active := false) else lib.documents[d],
            map c | c in lib.chunks :: if lib.chunks[c].documentId in gone then lib.chunks[c].(active := false) else lib.chunks[c])
  }

  datatype PublishStep =
    | Publish(draft: Draft)
    | Missing(sourceId: string, present: set<string>)

  predicate PublishOk(lib: Library, s: PublishStep) {
    s.Publish? ==> DraftOk(lib, s.draft)
  }

  function AfterPublish(lib: Library, s: PublishStep): Library
    requires PublishOk(lib, s)
  {
    match s
    case Publish(d) => Published(lib, d)
    case Missing(source, present) => WithoutMissing(lib, source, present)
  }

  // ---- chunks in step with documents ----

  /** A chunk is active exactly when it is in the current revision of an active document. */
  ghost predicate InStep(lib: Library) {
    forall c | c in lib.chunks :: lib.chunks[c].active <==> InCurrent(lib, c)
  }

  lemma {:induction false} NewRevisionKeepsInStep(lib: Library, d: Draft)
    requires Stored(lib) && InStep(lib) && DraftOk(lib, d) && Reused(DocumentFor(lib, d), d).None?
    ensures InStep(Published(lib, d))
  {
    var doc, out := DocumentFor(lib, d), Published(lib, d);
    var after := out.documents[d.documentId];
    assert CurrentIds(after) == Ids(d.aligned);
    forall c | c in out.chunks ensures out.chunks[c].active <==> InCurrent(out, c) {
      if c !in Ids(d.aligned) && lib.chunks[c].documentId != d.documentId {
        assert c !in CurrentIds(doc);
        assert InCurrent(out, c) <==> InCurrent(lib, c);
      }
    }
  }

  /** The chunks of the revision are those of the current one, or none if the document was deleted. */
  ghost predicate SameChunks(doc: Document, i: nat)
    requires DocumentOk(doc) && i < |doc.revisions|
  {
    forall c :: c in doc.revisions[i].chunkIds <==> doc.active && c in CurrentIds(doc)
  }

  /** Reusing a revision leaves every chunk as it is. */
  lemma {:induction false} ReuseKeepsInStepIff(lib: Library, d: Draft, i: nat)
    requires Stored(lib) && InStep(lib) && DraftOk(lib, d) && Reused(DocumentFor(lib, d), d) == Some(i)
    ensures InStep(Published(lib, d)) <==> SameChunks(DocumentFor(lib, d), i)
  {
    var doc, out := DocumentFor(lib, d), Published(lib, d);
    assert d.documentId in lib.documents && out.chunks == lib.chunks;
    assert CurrentIds(out.documents[d.documentId]) == doc.revisions[i].chunkIds;
    forall c | c in lib.chunks && lib.chunks[c].documentId != d.documentId
      ensures InCurrent(out, c) <==> InCurrent(lib, c)
    {
    }
    forall c | c in lib.chunks && lib.chunks[c].documentId == d.documentId
      ensures InCurrent(out, c) <==> c in doc.revisions[i].chunkIds
      ensures lib.chunks[c].active <==> doc.active && c in CurrentIds(doc)
    {
    }
    if InStep(out) {
      forall c ensures c in doc.revisions[i].chunkIds <==> doc.active && c in CurrentIds(doc) {
        if c in lib.chunks && lib.chunks[c].documentId == d.documentId {
          assert out.chunks[c].active <==> InCurrent(out, c);
        }
      }
    }
  }

  ghost predicate GoodReuse(lib: Library, s: PublishStep) {
    s.Publish? && DocumentOk(DocumentFor(lib, s.draft)) ==>
      var doc := DocumentFor(lib, s.draft);
      Reused(doc, s.draft).Some? ==> SameChunks(doc, Reused(doc, s.draft).value)
  }

  lemma {:induction false} MissingKeepsInStep(lib: Library, source: string, present: set<string>)
    requires Stored(lib) && InStep(lib)
    ensures InStep(WithoutMissing(lib, source, present))
  {
    var out := WithoutMissing(lib, source, present);
    forall c | c in lib.chunks && out.documents[lib.chunks[c].documentId] == lib.documents[lib.chunks[c].documentId]
      ensures InCurrent(out, c) <==> InCurrent(lib, c)
    {
    }
  }

  /** A publishing step keeps active chunks and current revisions in step exactly when it does not make
      a revision with other chunks current again; a document that comes back counts as having none. */
  lemma {:induction false} StepKeepsInStepIff(lib: Library, s: PublishStep)
    requires Stored(lib) && InStep(lib) && PublishOk(lib, s)
    ensures InStep(AfterPublish(lib, s)) <==> GoodReuse(lib, s)
  {
    match s {
      case Missing(source, present) => MissingKeepsInStep(lib, source, present);
      case Publish(d) =>
        if Reused(DocumentFor(lib, d), d).None? {
          NewRevisionKeepsInStep(lib, d);
        } else {
          ReuseKeepsInStepIff(lib, d, Reused(DocumentFor(lib, d), d).value);
        }
    }
  }

  lemma {:induction false} NewRevisionKeepsStored(lib: Library, d: Draft)
    requires Stored(lib) && DraftOk(lib, d) && Reused(DocumentFor(lib, d), d).None?
    ensures Stored(Published(lib, d))
  {
    var doc, out := DocumentFor(lib, d), Published(lib, d);
    forall e, i, c | e in out.documents && 0 <= i < |out.documents[e].revisions| && c in out.documents[e].revisions[i].chunkIds
      ensures c in out.chunks && out.chunks[c].documentId == e
    {
      if e == d.documentId && i == |doc.revisions| {
        assert c in Ids(d.aligned);
      } else {
        assert e in lib.documents && c in lib.documents[e].revisions[i].chunkIds;
        assert c in lib.chunks && lib.chunks[c].documentId == e;
        if c in Ids(d.aligned) {
          ExactIsOfDocument(lib, d, c);
        }
      }
    }
  }

  lemma {:induction false} ExactIsOfDocument(lib: Library, d: Draft, c: string)
    requires Stored(lib) && DraftOk(lib, d) && AlignedOk(lib, d) && c in Ids(d.aligned) && c in lib.chunks
    ensures lib.chunks[c].documentId == d.documentId
  {
    var i :| 0 <= i < |d.aligned| && Ids(d.aligned)[i] == c;
    assert d.aligned[i] in d.aligned && d.aligned[i].exact;
    assert c in CurrentIds(DocumentFor(lib, d));
  }

  lemma {:induction false} StepKeepsStored(lib: Library, s: PublishStep)
    requires Stored(lib) && PublishOk(lib, s)
    ensures Stored(AfterPublish(lib, s))
  {
    if s.Publish? {
      if Reused(DocumentFor(lib, s.draft), s.draft).None? {
        NewRevisionKeepsStored(lib, s.draft);
      }
    }
  }

  // ---- runs ----

  ghost predicate Leads(lib: Library, s: PublishStep, out: Library) {
    PublishOk(lib, s) && out == AfterPublish(lib, s)
  }

  ghost predicate Follows(libs: seq<Library>, steps: seq<PublishStep>, i: nat)
    requires i < |steps| && |libs| == |steps| + 1
  {
    Leads(libs[i], steps[i], libs[i + 1])
  }

  ghost predicate RunOf(libs: seq<Library>, steps: seq<PublishStep>) {
    && |libs| == |steps| + 1 && libs[0] == Library(map[], map[])
    && forall i | 0 <= i < |steps| :: Follows(libs, steps, i)
  }

  lemma {:induction false} RunKeepsStored(libs: seq<Library>, steps: seq<PublishStep>, j: nat)
    requires RunOf(libs, steps) && j < |libs|
    ensures Stored(libs[j])
  {
    if j > 0 {
      RunKeepsStored(libs, steps, j - 1);
      assert Follows(libs, steps, j - 1);
      StepKeepsStored(libs[j - 1], steps[j - 1]);
    }
  }

  /** In a run without such a reuse, active chunks and current revisions are always in step. */
  lemma {:induction false} RunKeepsInStep(libs: seq<Library>, steps: seq<PublishStep>, j: nat)
    requires RunOf(libs, steps) && j < |libs| && forall i | 0 <= i < j :: GoodReuse(libs[i], steps[i])
    ensures InStep(libs[j])
  {
    if j > 0 {
      RunKeepsInStep(libs, steps, j - 1);
      RunKeepsStored(libs, steps, j - 1);
      assert Follows(libs, steps, j - 1);
      StepKeepsInStepIff(libs[j - 1], steps[j - 1]);
    }
  }

  /** And then complete counts do mean that every listed chunk is covered. */
  lemma {:induction false} InStepCountsMeanFull(libs: seq<Library>, steps: seq<PublishStep>, j: nat, x: Index)
    requires RunOf(libs, steps) && j < |libs| && forall i | 0 <= i < j :: GoodReuse(libs[i], steps[i])
    requires Stored(libs[j]) && CoverageComplete(x, ChunksOf(libs[j]))
    ensures Full(x, ChunksOf(libs[j]), Sources(ChunksOf(libs[j])))
  {
    RunKeepsInStep(libs, steps, j);
    CountsMeanFullIff(x, ChunksOf(libs[j]));
  }

  /** A document that goes missing and comes back unchanged is active again, and none of its chunks is. */
  lemma {:induction false} ReturningDocumentHasNoActiveChunk(lib: Library, d: Draft, present: set<string>, c: string)
    requires Stored(lib) && d.documentId in lib.documents && lib.documents[d.documentId].active
    requires lib.documents[d.documentId].sourceId == d.sourceId && d.documentId !in present
    requires lib.documents[d.documentId].current.Some?
    requires var r := lib.documents[d.documentId].revisions[lib.documents[d.documentId].current.value];
      r.blob == d.blob && r.fingerprint == d.fingerprint && c in r.chunkIds
    requires DraftOk(WithoutMissing(lib, d.sourceId, present), d)
    ensures var back := Published(WithoutMissing(lib, d.sourceId, present), d);
      && back.documents[d.documentId].active && InCurrent(back, c) && !back.chunks[c].active
  {
    var gone := WithoutMissing(lib, d.sourceId, present);
    assert c in lib.chunks && lib.chunks[c].documentId == d.documentId;
    assert Reused(DocumentFor(gone, d), d) == lib.documents[d.documentId].current;
  }

  // ---- a run to an activation without coverage ----

  /** A document in one chunk, then with a second one, and another document. */
  predicate Drafts(one: Draft, two: Draft, other: Draft) {
    && one == Draft("d", "s", "S1", "f", "blob1", [Aligned("x", "h", false)])
    && two == Draft("d", "s", "S2", "f", "blob2", [Aligned("x", "h", true), Aligned("b", "g", false)])
    && other == Draft("e", "s", "S3", "f", "blob3", [Aligned("a", "k", false)])
  }

  predicate AfterOne(lib: Library) {
    && lib.chunks == map["x" := StoredChunk("h", true, "d")]
    && lib.documents == map["d" := Document("s", [Revision("S1", "f", "blob1", ["x"])], Some(0), true)]
  }

  predicate AfterTwo(lib: Library, current: nat) {
    && lib.chunks == map["x" := StoredChunk("h", true, "d"), "b" := StoredChunk("g", true, "d")]
    && lib.documents == map["d" := Document("s",
         [Revision("S1", "f", "blob1", ["x"]), Revision("S2", "f", "blob2", ["x", "b"])], Some(current), true)]
  }

  lemma {:induction false} PublishOne(d: Draft, lib: Library)
    requires d == Draft("d", "s", "S1", "f", "blob1", [Aligned("x", "h", false)]) && lib == Library(map[], map[])
    ensures PublishOk(lib, Publish(d)) && AfterOne(AfterPublish(lib, Publish(d)))
  {
    var doc := DocumentFor(lib, d);
    assert Reused(doc, d).None?;
    assert Ids(d.aligned) == ["x"];
    assert doc.revisions + [Revision("S1", "f", "blob1", ["x"])] == [Revision("S1", "f", "blob1", ["x"])];
    assert Published(lib, d).chunks == map["x" := StoredChunk("h", true, "d")];
  }

  lemma {:induction false} PublishTwo(d: Draft, lib: Library)
    requires d == Draft("d", "s", "S2", "f", "blob2", [Aligned("x", "h", true), Aligned("b", "g", false)]) && AfterOne(lib)
    ensures PublishOk(lib, Publish(d)) && AfterTwo(AfterPublish(lib, Publish(d)), 1)
  {
    var doc := DocumentFor(lib, d);
    NotSameRun(doc.revisions, d);
    assert Reused(doc, d).None?;
    assert Ids(d.aligned) == ["x", "b"];
    assert d.aligned[1..] == [Aligned("b", "g", false)];
    assert HashOf(d.aligned, "b") == "g" && HashOf(d.aligned, "x") == "h";
    var second := Revision("S2", "f", "blob2", ["x", "b"]);
    assert doc.revisions + [second] == [Revision("S1", "f", "blob1", ["x"]), second];
    assert Published(lib, d).chunks == map["x" := StoredChunk("h", true, "d"), "b" := StoredChunk("g", true, "d")];
  }

  lemma {:induction false} NotSameRun(revisions: seq<Revision>, d: Draft)
    requires |revisions| == 1 && !SameRun(revisions[0], d)
    ensures RevisionOf(revisions, d) == 1
  {
    assert RevisionOf(revisions[1..], d) == 0;
  }

  /** The snapshot published first is published again. */
  lemma {:induction false} PublishOneAgain(d: Draft, lib: Library)
    requires d == Draft("d", "s", "S1", "f", "blob1", [Aligned("x", "h", false)]) && AfterTwo(lib, 1)
    ensures PublishOk(lib, Publish(d)) && AfterTwo(AfterPublish(lib, Publish(d)), 0)
  {
    var doc := DocumentFor(lib, d);
    assert SameRun(doc.revisions[0], d) && RevisionOf(doc.revisions, d) == 0;
    assert Reused(doc, d) == Some(0);
  }

  lemma {:induction false} PublishOther(d: Draft, lib: Library)
    requires d == Draft("e", "s", "S3", "f", "blob3", [Aligned("a", "k", false)]) && AfterTwo(lib, 0)
    ensures PublishOk(lib, Publish(d))
    ensures var out := AfterPublish(lib, Publish(d));
      && out.chunks == lib.chunks["a" := StoredChunk("k", true, "e")]
      && out.documents == lib.documents["e" := Document("s", [Revision("S3", "f", "blob3", ["a"])], Some(0), true)]
  {
    var doc := DocumentFor(lib, d);
    assert Reused(doc, d).None?;
    assert Ids(d.aligned) == ["a"];
    assert doc.revisions + [Revision("S3", "f", "blob3", ["a"])] == [Revision("S3", "f", "blob3", ["a"])];
    assert Published(lib, d).chunks == lib.chunks["a" := StoredChunk("k", true, "e")];
  }

  predicate Before(cs: Chunks) {
    cs == map["x" := Chunk("h", true, true, "s"), "b" := Chunk("g", true, true, "s")]
  }

  predicate After(cs: Chunks) {
    cs == map["x" := Chunk("h", true, true, "s"), "b" := Chunk("g", true, false, "s"), "a" := Chunk("k", true, true, "s")]
  }

  predicate HoldsBoth(x: Index) {
    x == Index(map[Key("b", "g") := true, Key("x", "h") := true], {Key("b", "g"), Key("x", "h")})
  }

  lemma BothAreComplete(x: Index, cs: Chunks, ids: seq<string>)
    requires Before(cs) && HoldsBoth(x) && ids == ["b", "x"]
    ensures CoverageComplete(x, cs) && InOrder(ids, cs, Sources(cs))
    ensures |CoveredRows(x, cs)| == 2
  {
    assert cs["b"].sourceId in Sources(cs);
    assert ListedIds(cs) == {"b", "x"};
    assert CoveredRows(x, cs) == {Key("b", "g"), Key("x", "h")};
    assert Listed(cs, "b", Sources(cs)) && Listed(cs, "x", Sources(cs));
    assert 'b' < 'x';
  }

  lemma UncoveredAfter(x: Index, cs: Chunks)
    requires After(cs) && HoldsBoth(x)
    ensures CoverageComplete(x, cs) && !Full(x, cs, Sources(cs))
  {
    assert cs["a"].sourceId in Sources(cs);
    assert ListedIds(cs) == {"a", "x"};
    assert CoveredRows(x, cs) == {Key("b", "g"), Key("x", "h")};
    assert Listed(cs, "a", Sources(cs)) && !Covered(x, cs, "a");
  }

  lemma {:induction false} ChunksBefore(lib: Library)
    requires AfterTwo(lib, 1) && Stored(lib)
    ensures Before(ChunksOf(lib))
  {
    assert CurrentIds(lib.documents["d"]) == ["x", "b"];
    assert "x" in ["x", "b"] && "b" in ["x", "b"];
    assert InCurrent(lib, "x") && InCurrent(lib, "b");
  }

  lemma {:induction false} ChunksAfter(lib: Library, two: Library)
    requires AfterTwo(two, 0)
    requires lib.chunks == two.chunks["a" := StoredChunk("k", true, "e")]
    requires lib.documents == two.documents["e" := Document("s", [Revision("S3", "f", "blob3", ["a"])], Some(0), true)]
    requires Stored(lib)
    ensures After(ChunksOf(lib))
  {
    assert CurrentIds(lib.documents["d"]) == ["x"] && CurrentIds(lib.documents["e"]) == ["a"];
    assert "x" in ["x"] && "b" !in ["x"] && "a" in ["a"];
    assert InCurrent(lib, "x") && !InCurrent(lib, "b") && InCurrent(lib, "a");
  }

  lemma {:induction false} FourInARow(libs: seq<Library>, steps: seq<PublishStep>)
    requires |libs| == 5 && |steps| == 4 && libs[0] == Library(map[], map[])
    requires Follows(libs, steps, 0) && Follows(libs, steps, 1) && Follows(libs, steps, 2) && Follows(libs, steps, 3)
    ensures RunOf(libs, steps)
  {
    forall i | 0 <= i < |steps| ensures Follows(libs, steps, i) {
      assert i == 0 || i == 1 || i == 2 || i == 3;
    }
  }

  /** The first two publications, and the other two. */
  lemma {:induction false} FirstTwo(one: Draft, two: Draft, other: Draft, l0: Library) returns (l1: Library, l2: Library)
    requires Drafts(one, two, other) && l0 == Library(map[], map[])
    ensures Leads(l0, Publish(one), l1) && Leads(l1, Publish(two), l2) && AfterTwo(l2, 1)
  {
    PublishOne(one, l0);
    l1 := AfterPublish(l0, Publish(one));
    PublishTwo(two, l1);
    l2 := AfterPublish(l1, Publish(two));
  }

  lemma {:induction false} LastTwo(one: Draft, two: Draft, other: Draft, l2: Library) returns (l3: Library, l4: Library)
    requires Drafts(one, two, other) && AfterTwo(l2, 1)
    ensures Leads(l2, Publish(one), l3) && Leads(l3, Publish(other), l4) && AfterTwo(l3, 0)
    ensures l4.chunks == l3.chunks["a" := StoredChunk("k", true, "e")]
    ensures l4.documents == l3.documents["e" := Document("s", [Revision("S3", "f", "blob3", ["a"])], Some(0), true)]
  {
    PublishOneAgain(one, l2);
    l3 := AfterPublish(l2, Publish(one));
    PublishOther(other, l3);
    l4 := AfterPublish(l3, Publish(other));
  }

  lemma {:induction false} FourPublications(one: Draft, two: Draft, other: Draft, l0: Library)
    returns (libs: seq<Library>, steps: seq<PublishStep>)
    requires Drafts(one, two, other) && l0 == Library(map[], map[])
    ensures RunOf(libs, steps) && |libs| == 5 && AfterTwo(libs[2], 1) && AfterTwo(libs[3], 0)
    ensures libs[4].chunks == libs[3].chunks["a" := StoredChunk("k", true, "e")]
    ensures libs[4].documents == libs[3].documents["e" := Document("s", [Revision("S3", "f", "blob3", ["a"])], Some(0), true)]
  {
    steps := [Publish(one), Publish(two), Publish(one), Publish(other)];
    var l1, l2 := FirstTwo(one, two, other, l0);
    var l3, l4 := LastTwo(one, two, other, l2);
    libs := [l0, l1, l2, l3, l4];
    assert Leads(libs[0], steps[0], libs[1]) && Leads(libs[1], steps[1], libs[2]);
    assert Leads(libs[2], steps[2], libs[3]) && Leads(libs[3], steps[3], libs[4]);
    FourInARow(libs, steps);
  }

  lemma {:induction false} ListedByThen(libs: seq<Library>, steps: seq<PublishStep>)
    requires RunOf(libs, steps) && |libs| == 5 && AfterTwo(libs[2], 1) && AfterTwo(libs[3], 0)
    requires libs[4].chunks == libs[3].chunks["a" := StoredChunk("k", true, "e")]
    requires libs[4].documents == libs[3].documents["e" := Document("s", [Revision("S3", "f", "blob3", ["a"])], Some(0), true)]
    ensures Stored(libs[2]) && Before(ChunksOf(libs[2])) && Stored(libs[4]) && After(ChunksOf(libs[4]))
  {
    RunKeepsStored(libs, steps, 2);
    RunKeepsStored(libs, steps, 4);
    ChunksBefore(libs[2]);
    ChunksAfter(libs[4], libs[3]);
  }

  /** Creating the space, building it while both chunks are listed, and verifying it. */
  lemma {:induction false} BuiltFromBoth(k: Knowledge, id: string, ids: seq<string>, x: Index, steps: seq<Step>) returns (h: Knowledge)
    requires k == Knowledge(k.chunks, map[], None) && Before(k.chunks) && HoldsBoth(x) && ids == ["b", "x"]
    requires steps == [Step.Create(id)] + ([Step.Build(id, ids, 2, Completes)] + ([Step.Verify(id, true)] + []))
    ensures RunOk(k, steps) && Run(k, steps) == h
    ensures h.chunks == k.chunks && h.active.None? && id in h.spaces
    ensures h.spaces[id].index == x && h.spaces[id].state == Ready && h.spaces[id].version == 4
  {
    BothAreComplete(x, k.chunks, ids);
    var created := Next(k, Step.Create(id));
    var build := Step.Build(id, ids, 2, Completes);
    SavedBoth(k.chunks, ids, Index(map[], {}), x);
    assert !Reusable(created.spaces[id], WatermarkOf(KeysOf(k.chunks, ids)));
    var built := Next(created, build);
    assert built.spaces[id].index == x && built.spaces[id].state == Verifying && built.spaces[id].version == 3;
    h := Next(built, Step.Verify(id, true));
    RunOne(built, Step.Verify(id, true), []);
    RunOne(created, build, [Step.Verify(id, true)] + []);
    RunOne(k, Step.Create(id), [build] + ([Step.Verify(id, true)] + []));
  }

  lemma {:induction false} SavedBoth(cs: Chunks, ids: seq<string>, empty: Index, x: Index)
    requires Before(cs) && HoldsBoth(x) && ids == ["b", "x"] && empty == Index(map[], {})
    ensures KeysOf(cs, ids)[..2] == KeysOf(cs, ids) && SaveAll(empty, KeysOf(cs, ids)) == x
  {
    var ks := KeysOf(cs, ids);
    assert ks == [Key("b", "g"), Key("x", "h")];
    var first := Save(empty, ks[0]);
    assert first == Index(map[Key("b", "g") := true], {Key("b", "g")});
    var rest := ks[1..];
    assert rest == [Key("x", "h")] && rest[1..] == [];
    assert Save(first, rest[0]) == x;
    assert SaveAll(first, rest) == SaveAll(Save(first, rest[0]), rest[1..]);
  }

  /** A run that ends with an active space and a listed chunk it does not cover: a document is published
      with a second chunk, the space is built and verified, the earlier snapshot is published again,
      which leaves the second chunk active and unlisted, another document comes, and then the counts agree
      and activation goes through. */
  lemma {:induction false} ActivatedWithoutCoverage(one: Draft, two: Draft, other: Draft, id: string, x: Index)
    returns (libs: seq<Library>, published: seq<PublishStep>, steps: seq<Step>)
    requires Drafts(one, two, other) && HoldsBoth(x)
    ensures RunOf(libs, published) && |libs| == 5 && Stored(libs[2]) && Stored(libs[4])
    ensures steps == Activation(ChunksOf(libs[2]), ChunksOf(libs[4]), id) && RunOk(NOTHING, steps)
    ensures var k := Run(NOTHING, steps);
      && k.active == Some(id) && id in k.spaces && k.chunks == ChunksOf(libs[4])
      && !Full(k.spaces[id].index, k.chunks, Sources(k.chunks))
  {
    libs, published := FourPublications(one, two, other, Library(map[], map[]));
    ListedByThen(libs, published);
    steps := Activation(ChunksOf(libs[2]), ChunksOf(libs[4]), id);
    RunsToActivation(ChunksOf(libs[2]), ChunksOf(libs[4]), id, ["b", "x"], x, steps);
  }

  function Activation(first: Chunks, later: Chunks, id: string): seq<Step> {
    [ChunksChange(first), Step.Create(id), Step.Build(id, ["b", "x"], 2, Completes), Step.Verify(id, true),
     ChunksChange(later), Step.Activate(id, 4)]
  }

  lemma {:induction false} RunsToActivation(first: Chunks, later: Chunks, id: string, ids: seq<string>, x: Index, steps: seq<Step>)
    requires Before(first) && After(later) && HoldsBoth(x) && ids == ["b", "x"] && steps == Activation(first, later, id)
    ensures RunOk(NOTHING, steps)
    ensures var k := Run(NOTHING, steps);
      k.active == Some(id) && id in k.spaces && k.chunks == later && !Full(k.spaces[id].index, k.chunks, Sources(k.chunks))
  {
    var built := [steps[1]] + ([steps[2]] + ([steps[3]] + []));
    var last := [steps[4]] + ([steps[5]] + []);
    assert steps == [steps[0]] + (built + last);
    var start := Knowledge(first, map[], None);
    var h := BuiltFromBoth(start, id, ids, x, built);
    UncoveredAfter(x, later);
    var changed := Next(h, steps[4]);
    RunOne(changed, steps[5], []);
    RunOne(h, steps[4], [steps[5]] + []);
    RunInParts(start, built, last);
    assert Next(NOTHING, steps[0]) == start;
    RunOne(NOTHING, steps[0], built + last);
  }
}
