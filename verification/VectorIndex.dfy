/** The embeddings of one vector space against the chunks of the knowledge base: saving one,
    building in batches that a crash may cut short, and refreshing after chunks changed
    (saveEmbedding and vectorCoverage in vector-space-repository.ts, buildVectorSpace and
    refreshActiveVectorSpace in vector-space-workflows.ts). */
module VectorIndex {
  /** `listed`: its document is active and the chunk belongs to the document's current revision. */
  datatype Chunk = Chunk(contentHash: string, active: bool, listed: bool, sourceId: string)

  type Chunks = map<string, Chunk>

  /** The unique key of a space's embedding rows. */
  datatype Key = Key(chunkId: string, contentHash: string)

  /** The rows of a space, active or stale, and the rows of its vector table. */
  datatype Index = Index(rows: map<Key, bool>, vectors: set<Key>)

  predicate HasActive(x: Index, k: Key) {
    k in x.rows && x.rows[k]
  }

  predicate HasStale(x: Index, k: Key) {
    k in x.rows && !x.rows[k]
  }

  // ---- saving ----

  /** saveEmbedding: a row that exists is reused as it is, stale or not; otherwise the other rows
      of the chunk become stale, their vectors stay, and the new row is active. */
  function Save(x: Index, k: Key): Index {
    if k in x.rows then x
    else
      Index((map o | o in x.rows :: x.rows[o] && o.chunkId != k.chunkId)[k := true], x.vectors + {k})
  }

  function SaveAll(x: Index, ks: seq<Key>): Index
    decreases |ks|
  {
    if ks == [] then x else SaveAll(Save(x, ks[0]), ks[1..])
  }

  lemma {:induction false} SaveAllInParts(x: Index, a: seq<Key>, b: seq<Key>)
    ensures SaveAll(x, a + b) == SaveAll(SaveAll(x, a), b)
    decreases |a|
  {
    if a == [] {
      assert a + b == b;
    } else {
      assert (a + b)[1..] == a[1..] + b;
      SaveAllInParts(Save(x, a[0]), a[1..], b);
    }
  }

  lemma {:induction false} SavedKeysStay(x: Index, ks: seq<Key>)
    ensures x.rows.Keys <= SaveAll(x, ks).rows.Keys
    ensures forall k | k in ks :: k in SaveAll(x, ks).rows
    ensures forall k | k in SaveAll(x, ks).rows :: k in x.rows || k in ks
    decreases |ks|
  {
    if ks != [] {
      SavedKeysStay(Save(x, ks[0]), ks[1..]);
    }
  }

  lemma {:induction false} SavingAgainChangesNothing(x: Index, ks: seq<Key>)
    requires forall k | k in ks :: k in x.rows
    ensures SaveAll(x, ks) == x
    decreases |ks|
  {
    if ks != [] {
      SavingAgainChangesNothing(x, ks[1..]);
    }
  }

  /** What an interrupted save pass did is not done twice: finishing it later gives the index an
      uninterrupted pass gives. */
  lemma ResumedSavesAgree(x: Index, ks: seq<Key>, n: nat)
    requires n <= |ks|
    ensures SaveAll(SaveAll(x, ks[..n]), ks) == SaveAll(x, ks)
  {
    var done := SaveAll(x, ks[..n]);
    SavedKeysStay(x, ks[..n]);
    SavingAgainChangesNothing(done, ks[..n]);
    assert ks == ks[..n] + ks[n..];
    SaveAllInParts(done, ks[..n], ks[n..]);
    SaveAllInParts(x, ks[..n], ks[n..]);
  }

  /** Passes cut short at the given points. */
  function Interrupted(x: Index, ks: seq<Key>, cuts: seq<nat>): Index
    requires forall i | 0 <= i < |cuts| :: cuts[i] <= |ks|
    decreases |cuts|
  {
    if cuts == [] then x else Interrupted(SaveAll(x, ks[..cuts[0]]), ks, cuts[1..])
  }

  /** However many builds crash, and wherever, the one that completes leaves the index a single
      uninterrupted build leaves. */
  lemma {:induction false} CrashedBuildsDoNotMatter(x: Index, ks: seq<Key>, cuts: seq<nat>)
    requires forall i | 0 <= i < |cuts| :: cuts[i] <= |ks|
    ensures SaveAll(Interrupted(x, ks, cuts), ks) == SaveAll(x, ks)
    decreases |cuts|
  {
    if cuts != [] {
      CrashedBuildsDoNotMatter(SaveAll(x, ks[..cuts[0]]), ks, cuts[1..]);
      ResumedSavesAgree(x, ks, cuts[0]);
    }
  }

  /** The keys a batch really embeds: those without an active row. */
  function Missing(x: Index, ks: seq<Key>): seq<Key> {
    if ks == [] then [] else (if HasActive(x, ks[0]) then [] else [ks[0]]) + Missing(x, ks[1..])
  }

  /** Leaving out the keys that have an active row changes nothing. */
  lemma {:induction false} SavingMissing(x: Index, y: Index, ks: seq<Key>)
    requires forall k | k in x.rows :: k in y.rows
    ensures SaveAll(y, Missing(x, ks)) == SaveAll(y, ks)
    decreases |ks|
  {
    if ks != [] {
      SavingMissing(x, Save(y, ks[0]), ks[1..]);
      if HasActive(x, ks[0]) {
        assert Missing(x, ks) == Missing(x, ks[1..]);
      } else {
        assert Missing(x, ks)[1..] == Missing(x, ks[1..]);
      }
    }
  }

  lemma {:induction false} SavingSomeMissing(x: Index, y: Index, ks: seq<Key>, m: nat) returns (n: nat)
    requires forall k | k in x.rows :: k in y.rows
    requires m <= |Missing(x, ks)|
    ensures n <= |ks| && SaveAll(y, Missing(x, ks)[..m]) == SaveAll(y, ks[..n])
    decreases |ks|
  {
    if m == 0 {
      n := 0;
      assert Missing(x, ks)[..m] == ks[..n] == [];
    } else {
      var rest := Missing(x, ks[1..]);
      if HasActive(x, ks[0]) {
        assert Missing(x, ks) == rest;
        n := SavingSomeMissing(x, y, ks[1..], m);
      } else {
        assert Missing(x, ks)[..m][1..] == rest[..m - 1];
        n := SavingSomeMissing(x, Save(y, ks[0]), ks[1..], m - 1);
      }
      assert ks[..n + 1][1..] == ks[1..][..n];
      n := n + 1;
    }
  }

  // ---- invariants of the rows ----

  /** At most one active row a chunk, and a vector for each active row. */
  predicate Consistent(x: Index) {
    && (forall a, b | a in x.rows && b in x.rows && x.rows[a] && x.rows[b] && a.chunkId == b.chunkId :: a == b)
    && (forall k | k in x.rows && x.rows[k] :: k in x.vectors)
  }

  lemma {:induction false} SavingKeepsConsistent(x: Index, ks: seq<Key>)
    requires Consistent(x)
    ensures Consistent(SaveAll(x, ks))
    decreases |ks|
  {
    if ks != [] {
      SavingKeepsConsistent(Save(x, ks[0]), ks[1..]);
    }
  }

  predicate DistinctChunks(ks: seq<Key>) {
    forall i, j | 0 <= i < j < |ks| :: ks[i].chunkId != ks[j].chunkId
  }

  lemma {:induction false} OthersUntouched(x: Index, ks: seq<Key>, k: Key)
    requires forall o | o in ks :: o.chunkId != k.chunkId
    ensures HasActive(SaveAll(x, ks), k) <==> HasActive(x, k)
    ensures HasStale(SaveAll(x, ks), k) <==> HasStale(x, k)
    decreases |ks|
  {
    if ks != [] {
      OthersUntouched(Save(x, ks[0]), ks[1..], k);
    }
  }

  /** Saving a key makes it active exactly when it had no stale row. */
  lemma {:induction false} SavedIsActiveIff(x: Index, ks: seq<Key>, k: Key)
    requires DistinctChunks(ks) && k in ks
    ensures HasActive(SaveAll(x, ks), k) <==> !HasStale(x, k)
    decreases |ks|
  {
    if ks[0] == k {
      OthersUntouched(Save(x, k), ks[1..], k);
    } else {
      assert k in ks[1..];
      var i :| 1 <= i < |ks| && ks[i] == k;
      assert ks[0].chunkId != ks[i].chunkId;
      SavedIsActiveIff(Save(x, ks[0]), ks[1..], k);
    }
  }

  // ---- coverage ----

  function KeyOf(cs: Chunks, id: string): Key
    requires id in cs
  {
    Key(id, cs[id].contentHash)
  }

  predicate Listed(cs: Chunks, id: string, source: set<string>) {
    id in cs && cs[id].active && cs[id].listed && cs[id].sourceId in source
  }

  predicate Covered(x: Index, cs: Chunks, id: string) {
    id in cs && HasActive(x, KeyOf(cs, id))
  }

  /** The row belongs to an active chunk and to its present content. */
  predicate Current(cs: Chunks, k: Key) {
    k.chunkId in cs && cs[k.chunkId].active && cs[k.chunkId].contentHash == k.contentHash
  }

  predicate Clean(x: Index, cs: Chunks) {
    forall k | k in x.rows && x.rows[k] :: Current(cs, k)
  }

  /** What activeChunks returns: the listed chunks, each once. */
  predicate Lists(ids: seq<string>, cs: Chunks, sources: set<string>) {
    && (forall i | 0 <= i < |ids| :: Listed(cs, ids[i], sources))
    && (forall id | id in cs :: Listed(cs, id, sources) ==> id in ids)
    && (forall i, j | 0 <= i < j < |ids| :: ids[i] != ids[j])
  }

  function KeysOf(cs: Chunks, ids: seq<string>): (ks: seq<Key>)
    requires forall i | 0 <= i < |ids| :: ids[i] in cs
    ensures |ks| == |ids| && forall i | 0 <= i < |ids| :: ks[i] == KeyOf(cs, ids[i])
  {
    seq(|ids|, i requires 0 <= i < |ids| => KeyOf(cs, ids[i]))
  }

  // ---- refreshing ----

  /** Active rows that no longer belong to a present chunk become stale and lose their vector. */
  function Marked(x: Index, cs: Chunks): Index {
    Index(map k | k in x.rows :: x.rows[k] && Current(cs, k),
          set k | k in x.vectors && !(HasActive(x, k) && !Current(cs, k)))
  }

  /** Refreshing with a call that gave out after `n` embeddings; all of them if it succeeded. */
  function Refreshed(x: Index, cs: Chunks, ids: seq<string>, n: nat): Index
    requires n <= |ids| && forall i | 0 <= i < |ids| :: ids[i] in cs
  {
    SaveAll(Marked(x, cs), KeysOf(cs, ids)[..n])
  }

  lemma {:induction false} SavingKeepsClean(x: Index, cs: Chunks, ks: seq<Key>)
    requires Clean(x, cs) && forall k | k in ks :: Current(cs, k)
    ensures Clean(SaveAll(x, ks), cs)
    decreases |ks|
  {
    if ks != [] {
      SavingKeepsClean(Save(x, ks[0]), cs, ks[1..]);
    }
  }

  /** On every outcome, a failed call at any point included, no active row is left that refers to
      an inactive chunk or to older content. */
  lemma RefreshedIsClean(x: Index, cs: Chunks, ids: seq<string>, sources: set<string>, n: nat)
    requires Lists(ids, cs, sources) && n <= |ids|
    ensures Clean(Refreshed(x, cs, ids, n), cs)
  {
    forall k | k in KeysOf(cs, ids)[..n] ensures Current(cs, k) {
      var i :| 0 <= i < n && KeysOf(cs, ids)[i] == k;
      assert Listed(cs, ids[i], sources);
    }
    SavingKeepsClean(Marked(x, cs), cs, KeysOf(cs, ids)[..n]);
  }

  lemma RefreshedIsConsistent(x: Index, cs: Chunks, ids: seq<string>, n: nat)
    requires Consistent(x) && n <= |ids| && forall i | 0 <= i < |ids| :: ids[i] in cs
    ensures Consistent(Refreshed(x, cs, ids, n))
  {
    SavingKeepsConsistent(Marked(x, cs), KeysOf(cs, ids)[..n]);
  }

  /** A completed refresh covers a listed chunk exactly when the chunk had no stale row for its
      present content: such a row, left behind when the chunk was tombstoned or replaced, is
      reused without becoming active again, and the chunk stays uncovered. */
  lemma RefreshCoversIff(x: Index, cs: Chunks, ids: seq<string>, sources: set<string>, id: string)
    requires Lists(ids, cs, sources) && Listed(cs, id, sources)
    ensures Covered(Refreshed(x, cs, ids, |ids|), cs, id) <==> !HasStale(x, KeyOf(cs, id))
  {
    var ks := KeysOf(cs, ids);
    assert ks[..|ids|] == ks;
    var i :| 0 <= i < |ids| && ids[i] == id;
    assert ks[i] == KeyOf(cs, id);
    assert Current(cs, KeyOf(cs, id));
    SavedIsActiveIff(Marked(x, cs), ks, KeyOf(cs, id));
  }

  /** A refresh leaves the coverage of the active chunks it does not list as it was. */
  lemma RefreshLeavesOthers(x: Index, cs: Chunks, ids: seq<string>, sources: set<string>, id: string, n: nat)
    requires Lists(ids, cs, sources) && n <= |ids|
    requires id in cs && cs[id].active && !Listed(cs, id, sources)
    ensures Covered(Refreshed(x, cs, ids, n), cs, id) <==> Covered(x, cs, id)
  {
    forall o | o in KeysOf(cs, ids)[..n] ensures o.chunkId != id {
      var i :| 0 <= i < n && KeysOf(cs, ids)[i] == o;
      assert Listed(cs, ids[i], sources);
    }
    assert Current(cs, KeyOf(cs, id));
    OthersUntouched(Marked(x, cs), KeysOf(cs, ids)[..n], KeyOf(cs, id));
  }

  predicate Full(x: Index, cs: Chunks, sources: set<string>) {
    forall id | id in cs && Listed(cs, id, sources) :: Covered(x, cs, id)
  }

  predicate NoStaleRow(x: Index, cs: Chunks, sources: set<string>) {
    forall id | id in cs && Listed(cs, id, sources) :: !HasStale(x, KeyOf(cs, id))
  }

  /** Refreshing some sources completes the coverage of all exactly when the others were covered
      and none of theirs has a stale row; refreshing all of them is the case of no others. */
  lemma RefreshIsFullIff(x: Index, cs: Chunks, ids: seq<string>, some: set<string>, all: set<string>)
    requires Lists(ids, cs, some) && some <= all
    ensures Full(Refreshed(x, cs, ids, |ids|), cs, all) <==> NoStaleRow(x, cs, some) && Full(x, cs, all - some)
  {
    var y := Refreshed(x, cs, ids, |ids|);
    forall id | id in cs && Listed(cs, id, some) ensures Covered(y, cs, id) <==> !HasStale(x, KeyOf(cs, id)) {
      RefreshCoversIff(x, cs, ids, some, id);
    }
    forall id | id in cs && Listed(cs, id, all - some) ensures Covered(y, cs, id) <==> Covered(x, cs, id) {
      RefreshLeavesOthers(x, cs, ids, some, id, |ids|);
    }
    assert forall id | id in cs :: Listed(cs, id, all) <==> Listed(cs, id, some) || Listed(cs, id, all - some);
  }

  function ActiveKeys(x: Index): set<Key> {
    set k | k in x.rows && x.rows[k]
  }

  const EMPTY := Index(map[], {})

  lemma RebuiltKeys(cs: Chunks, ids: seq<string>, sources: set<string>)
    requires Lists(ids, cs, sources)
    ensures ActiveKeys(SaveAll(EMPTY, KeysOf(cs, ids))) == set k | k in KeysOf(cs, ids)
  {
    var ks := KeysOf(cs, ids);
    SavedKeysStay(EMPTY, ks);
    assert DistinctChunks(ks);
    forall k | k in ks ensures HasActive(SaveAll(EMPTY, ks), k) {
      SavedIsActiveIff(EMPTY, ks, k);
    }
  }

  /** The incremental refresh agrees with building anew, both leaving the same active rows, exactly
      when no listed chunk has a stale row for its content and no active chunk is covered unlisted. */
  lemma RefreshAgreesWithRebuild(x: Index, cs: Chunks, ids: seq<string>, sources: set<string>)
    requires Lists(ids, cs, sources)
    ensures ActiveKeys(Refreshed(x, cs, ids, |ids|)) == ActiveKeys(SaveAll(EMPTY, KeysOf(cs, ids))) <==>
            NoStaleRow(x, cs, sources) && forall id | id in cs && cs[id].active && Covered(x, cs, id) :: Listed(cs, id, sources)
  {
    var y := Refreshed(x, cs, ids, |ids|);
    var ks := KeysOf(cs, ids);
    RebuiltKeys(cs, ids, sources);
    RefreshedIsClean(x, cs, ids, sources, |ids|);
    forall k | Current(cs, k)
      ensures k in ActiveKeys(y) <==>
              if Listed(cs, k.chunkId, sources) then !HasStale(x, k) else Covered(x, cs, k.chunkId)
    {
      assert k == KeyOf(cs, k.chunkId);
      if Listed(cs, k.chunkId, sources) {
        RefreshCoversIff(x, cs, ids, sources, k.chunkId);
      } else {
        RefreshLeavesOthers(x, cs, ids, sources, k.chunkId, |ids|);
      }
    }
    KeysAreListed(cs, ids, sources);
    forall id | id in cs && cs[id].active ensures Current(cs, KeyOf(cs, id)) {}
  }

  lemma KeysAreListed(cs: Chunks, ids: seq<string>, sources: set<string>)
    requires Lists(ids, cs, sources)
    ensures forall k :: k in KeysOf(cs, ids) <==> Current(cs, k) && Listed(cs, k.chunkId, sources)
  {
    var ks := KeysOf(cs, ids);
    forall k ensures k in ks <==> Current(cs, k) && Listed(cs, k.chunkId, sources) {
      if k in ks {
        var i :| 0 <= i < |ids| && ks[i] == k;
        assert Listed(cs, ids[i], sources);
      }
      if Current(cs, k) && Listed(cs, k.chunkId, sources) {
        var i :| 0 <= i < |ids| && ids[i] == k.chunkId;
        assert ks[i] == k;
      }
    }
  }

  /** Tombstoning a covered chunk, refreshing, making it active again and refreshing once more
      leaves it uncovered. */
  lemma ReturningChunkStaysUncovered(x: Index, cs: Chunks, id: string, without: seq<string>, with: seq<string>, all: set<string>)
    requires Listed(cs, id, all) && Covered(x, cs, id)
    requires var gone := cs[id := cs[id].(active := false)]; Lists(without, gone, all)
    requires Lists(with, cs, all)
    ensures var gone := cs[id := cs[id].(active := false)];
      !Covered(Refreshed(Refreshed(x, gone, without, |without|), cs, with, |with|), cs, id)
  {
    var gone := cs[id := cs[id].(active := false)];
    var k := KeyOf(cs, id);
    forall o | o in KeysOf(gone, without)[..|without|] ensures o.chunkId != id {
      var i :| 0 <= i < |without| && KeysOf(gone, without)[i] == o;
      assert Listed(gone, without[i], all);
    }
    OthersUntouched(Marked(x, gone), KeysOf(gone, without)[..|without|], k);
    RefreshCoversIff(Refreshed(x, gone, without, |without|), cs, with, all, id);
  }
}
