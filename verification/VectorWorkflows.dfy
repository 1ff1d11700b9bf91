/** The workflows over vector spaces as they run, batch by batch, each tied to the step of
    VectorSpaces it amounts to, wherever a call gives out or the process dies. */
module VectorWorkflows {
  import opened Outcomes
  import opened VectorIndex
  import opened VectorSpaces

  datatype WorkflowError = InputInvalid | Refused(error: SpaceError) | CallFailed | Crashed

  datatype RefreshState = NoActiveSpace | RefreshReady | Degraded

  /** What goes wrong in a pass: whether the sentinel fails; the keys before which the call of a batch
      gives out, those whose vector is missing from it, those before which the process dies; and
      whether it dies after the last save. */
  datatype Faults = Faults(sentinelFails: bool, calls: set<Key>, vectors: set<Key>, deaths: set<Key>, diesLast: bool)

  function Members(ks: seq<Key>): set<Key> {
    set k | k in ks
  }

  /** A refresh does not look at the sentinel. */
  function NoSentinel(faults: Faults): Faults {
    faults.(sentinelFails := false)
  }

  /** A pass over these keys ends as told only for a reason. */
  predicate Explained(faults: Faults, ks: seq<Key>, end: BuildEnd) {
    && (end.GivesOut? ==> faults.sentinelFails || !((faults.calls + faults.vectors) !! Members(ks)))
    && (end.Crashes? ==> faults.diesLast || !(faults.deaths !! Members(ks)))
  }

  function EndedAs(end: BuildEnd): Outcome<WorkflowError> {
    match end
    case Completes => Pass
    case GivesOut => Fail(CallFailed)
    case Crashes => Fail(Crashed)
  }

  lemma {:induction false} MissingAreOfKeys(x: Index, ks: seq<Key>)
    ensures Members(Missing(x, ks)) <= Members(ks)
  {
    if ks != [] {
      MissingAreOfKeys(x, ks[1..]);
      forall k | k in Missing(x, ks) ensures k in ks {
        assert k == ks[0] || k in Missing(x, ks[1..]);
        assert k in Missing(x, ks[1..]) ==> k in Members(Missing(x, ks[1..]));
        assert k in Members(ks[1..]) ==> k in ks[1..];
      }
    }
  }

  lemma PartIsOfKeys(ks: seq<Key>, from: nat, limit: nat)
    requires from <= limit <= |ks|
    ensures Members(ks[from..limit]) <= Members(ks)
  {
  }

  lemma ExplainedByMore(faults: Faults, some: seq<Key>, all: seq<Key>, end: BuildEnd)
    requires Members(some) <= Members(all) && Explained(faults, some, end)
    ensures Explained(faults, all, end)
  {
  }

  lemma SaveOneMore(x: Index, ks: seq<Key>, n: nat)
    requires n < |ks|
    ensures SaveAll(x, ks[..n + 1]) == Save(SaveAll(x, ks[..n]), ks[n])
  {
    assert ks[..n + 1] == ks[..n] + [ks[n]];
    SaveAllInParts(x, ks[..n], [ks[n]]);
  }

  lemma SaveSomeMore(x: Index, ks: seq<Key>, from: nat, n: nat)
    requires from + n <= |ks|
    ensures SaveAll(SaveAll(x, ks[..from]), ks[from..from + n]) == SaveAll(x, ks[..from + n])
  {
    assert ks[..from + n] == ks[..from] + ks[from..from + n];
    SaveAllInParts(x, ks[..from], ks[from..from + n]);
  }

  /** Where in the whole list the saves of some of a batch's missing keys have got to. */
  lemma PartOfBatch(x: Index, ks: seq<Key>, offset: nat, end: nat, missing: seq<Key>, j: nat) returns (n: nat)
    requires offset <= end <= |ks|
    requires missing == Missing(SaveAll(x, ks[..offset]), ks[offset..end]) && j <= |missing|
    ensures offset <= n <= end && SaveAll(SaveAll(x, ks[..offset]), missing[..j]) == SaveAll(x, ks[..n])
  {
    var y, batch := SaveAll(x, ks[..offset]), ks[offset..end];
    var m := SavingSomeMissing(y, y, batch, j);
    n := offset + m;
    assert batch[..m] == ks[offset..offset + m];
    SaveSomeMore(x, ks, offset, m);
  }

  lemma WholeBatch(x: Index, ks: seq<Key>, offset: nat, end: nat, missing: seq<Key>)
    requires offset <= end <= |ks|
    requires missing == Missing(SaveAll(x, ks[..offset]), ks[offset..end])
    ensures SaveAll(SaveAll(x, ks[..offset]), missing) == SaveAll(x, ks[..end])
  {
    SavingMissing(SaveAll(x, ks[..offset]), SaveAll(x, ks[..offset]), ks[offset..end]);
    SaveSomeMore(x, ks, offset, end - offset);
  }

  lemma {:induction false} MissingOneMore(x: Index, ks: seq<Key>, k: Key)
    ensures Missing(x, ks + [k]) == Missing(x, ks) + if HasActive(x, k) then [] else [k]
  {
    if ks != [] {
      assert (ks + [k])[1..] == ks[1..] + [k];
      MissingOneMore(x, ks[1..], k);
    } else {
      assert (ks + [k])[1..] == [];
    }
  }

  method FindMissing(x: Index, batch: seq<Key>) returns (missing: seq<Key>)
    ensures missing == Missing(x, batch)
  {
    missing := [];
    var i := 0;
    while i < |batch|
      invariant 0 <= i <= |batch|
      invariant missing == Missing(x, batch[..i])
    {
      MissingOneMore(x, batch[..i], batch[i]);
      assert batch[..i + 1] == batch[..i] + [batch[i]];
      if !HasActive(x, batch[i]) {
        missing := missing + [batch[i]];
      }
      i := i + 1;
    }
    assert batch[..i] == batch;
  }

  function StaleKeys(x: Index, cs: Chunks): set<Key> {
    set k | k in x.rows && x.rows[k] && !Current(cs, k)
  }

  function MarkedSome(x: Index, done: set<Key>): Index {
    Index(map k | k in x.rows :: x.rows[k] && k !in done, x.vectors - done)
  }

  lemma NoneMarked(x: Index)
    ensures MarkedSome(x, {}) == x
  {
    assert MarkedSome(x, {}).rows == x.rows;
  }

  lemma MarkOneMore(x: Index, done: set<Key>, k: Key)
    requires k in x.rows
    ensures MarkedSome(x, done + {k}) == Index(MarkedSome(x, done).rows[k := false], MarkedSome(x, done).vectors - {k})
  {
    assert MarkedSome(x, done + {k}).rows == MarkedSome(x, done).rows[k := false];
    assert MarkedSome(x, done + {k}).vectors == MarkedSome(x, done).vectors - {k};
  }

  lemma AllMarked(x: Index, cs: Chunks)
    ensures MarkedSome(x, StaleKeys(x, cs)) == Marked(x, cs)
  {
    assert MarkedSome(x, StaleKeys(x, cs)).rows == Marked(x, cs).rows;
    assert MarkedSome(x, StaleKeys(x, cs)).vectors == Marked(x, cs).vectors;
  }

  /** The outdated active rows are marked one by one. */
  method MarkRows(x: Index, cs: Chunks) returns (marked: Index)
    ensures marked == Marked(x, cs)
  {
    var stale := StaleKeys(x, cs);
    ghost var done: set<Key> := {};
    marked := x;
    NoneMarked(x);
    while stale != {}
      invariant done + stale == StaleKeys(x, cs) && done !! stale
      invariant marked == MarkedSome(x, done)
      decreases |stale|
    {
      var k :| k in stale;
      MarkOneMore(x, done, k);
      marked := Index(marked.rows[k := false], marked.vectors - {k});
      stale := stale - {k};
      done := done + {k};
    }
    assert done == StaleKeys(x, cs);
    AllMarked(x, cs);
  }

  class Database {
    var chunks: Chunks
    var spaces: map<string, Space>
    var active: Option<string>

    function Value(): Knowledge
      reads this
    {
      Knowledge(chunks, spaces, active)
    }

    method SaveEmbedding(id: string, k: Key)
      requires id in spaces
      modifies this`spaces
      ensures spaces == old(spaces)[id := old(spaces[id]).(index := Save(old(spaces[id]).index, k))]
    {
      var space := spaces[id];
      if k !in space.index.rows {
        var older := map o | o in space.index.rows :: space.index.rows[o] && o.chunkId != k.chunkId;
        spaces := spaces[id := space.(index := Index(older[k := true], space.index.vectors + {k}))];
      }
    }

    /** Why a build is refused before it starts. */
    ghost function BuildRefusal(id: string, batchSize: int): Outcome<WorkflowError>
      reads this
    {
      if batchSize < 1 || batchSize > 100 then Fail(InputInvalid)
      else if id !in spaces then Fail(Refused(SpaceNotFound))
      else if !Buildable(spaces[id]) then Fail(Refused(BuildInvalid))
      else Pass
    }

    /** buildVectorSpace. `listing` is what activeChunks returned. The process may die before any save
        or after the last, and a call may give out before or within a batch. */
    method Build(id: string, batchSize: int, listing: seq<string>, faults: Faults)
      returns (outcome: Outcome<WorkflowError>, ghost n: nat, ghost end: BuildEnd)
      requires InOrder(listing, chunks, Sources(chunks))
      modifies this`spaces
      ensures StepOk(old(Value()), Step.Build(id, listing, n, end))
      ensures Value() == if 1 <= batchSize <= 100 then Next(old(Value()), Step.Build(id, listing, n, end)) else old(Value())
      ensures outcome == if old(BuildRefusal(id, batchSize)).Fail? then old(BuildRefusal(id, batchSize)) else EndedAs(end)
      ensures Explained(faults, KeysOf(chunks, listing), end)
    {
      n, end := |listing|, Completes;
      if batchSize < 1 || batchSize > 100 {
        return Fail(InputInvalid), n, end;
      }
      if id !in spaces {
        return Fail(Refused(SpaceNotFound)), n, end;
      }
      var space := spaces[id];
      if !Buildable(space) {
        return Fail(Refused(BuildInvalid)), n, end;
      }
      var ks := KeysOf(chunks, listing);
      if Reusable(space, WatermarkOf(ks)) {
        return Pass, n, end;
      }
      outcome, n, end := BuildSpace(id, ks, batchSize, faults);
    }

    /** From the start of a run on: the sentinel, the batches, and the verdict on the run. */
    method BuildSpace(id: string, ks: seq<Key>, batchSize: int, faults: Faults)
      returns (outcome: Outcome<WorkflowError>, ghost n: nat, ghost end: BuildEnd)
      requires id in spaces && batchSize >= 1
      modifies this`spaces
      ensures n <= |ks| && (end.Completes? ==> n == |ks|) && outcome == EndedAs(end) && Explained(faults, ks, end)
      ensures faults.sentinelFails ==> end.GivesOut? && n == 0
      ensures spaces == old(spaces)[id := Built(old(spaces[id]), chunks, ks, n, end)]
    {
      ghost var before, x := spaces, spaces[id].index;
      ghost var base := Started(spaces[id], ks);
      spaces := spaces[id := Started(spaces[id], ks)];
      assert SaveAll(x, ks[..0]) == x;
      var stopped := GivesOut;
      n := 0;
      if !faults.sentinelFails {
        stopped, n := RunBatches(id, ks, batchSize, faults, before, base, x);
      }
      end := stopped;
      outcome := EndedAs(stopped);
      if stopped == GivesOut {
        GiveUp(id, ks);
      }
      if stopped == Completes {
        var built := spaces[id];
        spaces := spaces[id := built.(state := Verifying, runs := WithRun(built.runs, WatermarkOf(ks), RunVerifying),
                                      coverage := |CoveredRows(built.index, chunks)|, expected := |ListedIds(chunks)|,
                                      version := built.version + 1)];
      }
    }

    method RunBatches(id: string, ks: seq<Key>, batchSize: int, faults: Faults, ghost before: map<string, Space>,
                      ghost base: Space, ghost x: Index)
      returns (stopped: BuildEnd, ghost n: nat)
      requires batchSize >= 1 && spaces == before[id := base.(index := SaveAll(x, ks[..0]))]
      modifies this`spaces
      ensures n <= |ks| && spaces == before[id := base.(index := SaveAll(x, ks[..n]))]
      ensures Explained(faults, ks, stopped) && (stopped.Completes? ==> n == |ks|)
    {
      var offset: nat := 0;
      n := 0;
      while offset < |ks|
        invariant offset == n <= |ks|
        invariant spaces == before[id := base.(index := SaveAll(x, ks[..n]))]
      {
        var limit := if offset + batchSize <= |ks| then offset + batchSize else |ks|;
        stopped, n := BuildBatch(id, ks, offset, limit, faults, before, base, x);
        if stopped != Completes {
          return;
        }
        offset := limit;
      }
      stopped := if faults.diesLast then Crashes else Completes;
    }

    method GiveUp(id: string, ks: seq<Key>)
      requires id in spaces
      modifies this`spaces
      ensures spaces == old(spaces)[id := old(spaces[id]).(state := BuildFailed,
                runs := WithRun(old(spaces[id]).runs, WatermarkOf(ks), RunFailed), version := old(spaces[id]).version + 1)]
    {
      var space := spaces[id];
      spaces := spaces[id := space.(state := BuildFailed, runs := WithRun(space.runs, WatermarkOf(ks), RunFailed),
                                    version := space.version + 1)];
    }

    /** One batch: look up what is missing, embed it in one call, save vector by vector. */
    method BuildBatch(id: string, ks: seq<Key>, offset: nat, limit: nat, faults: Faults,
                      ghost before: map<string, Space>, ghost base: Space, ghost x: Index)
      returns (stopped: BuildEnd, ghost n: nat)
      requires offset < limit <= |ks|
      requires spaces == before[id := base.(index := SaveAll(x, ks[..offset]))]
      modifies this`spaces
      ensures n <= |ks| && spaces == before[id := base.(index := SaveAll(x, ks[..n]))]
      ensures Explained(faults, ks, stopped) && (stopped.Completes? ==> n == limit)
    {
      var missing := FindMissing(spaces[id].index, ks[offset..limit]);
      ghost var y := SaveAll(x, ks[..offset]);
      n := offset;
      MissingAreOfKeys(y, ks[offset..limit]);
      PartIsOfKeys(ks, offset, limit);
      if missing != [] && missing[0] in faults.calls {
        assert missing[0] in Members(missing);
        return GivesOut, n;
      }
      assert SaveAll(y, missing[..0]) == y;
      ghost var j: nat;
      stopped, j := SaveMissing(id, missing, faults, before, base, y);
      ExplainedByMore(faults, missing, ks, stopped);
      n := PartOfBatch(x, ks, offset, limit, missing, j);
      if stopped.Completes? {
        assert missing[..j] == missing;
        WholeBatch(x, ks, offset, limit, missing);
        n := limit;
      }
    }

    method SaveMissing(id: string, missing: seq<Key>, faults: Faults, ghost before: map<string, Space>, ghost base: Space,
                       ghost y: Index)
      returns (stopped: BuildEnd, ghost j: nat)
      requires spaces == before[id := base.(index := SaveAll(y, missing[..0]))]
      modifies this`spaces
      ensures j <= |missing| && (stopped.Completes? ==> j == |missing|) && Explained(faults, missing, stopped)
      ensures spaces == before[id := base.(index := SaveAll(y, missing[..j]))]
    {
      var i: nat := 0;
      j := 0;
      while i < |missing|
        invariant i == j <= |missing|
        invariant spaces == before[id := base.(index := SaveAll(y, missing[..j]))]
      {
        assert missing[i] in Members(missing);
        if missing[i] in faults.deaths || missing[i] in faults.vectors {
          return if missing[i] in faults.deaths then Crashes else GivesOut, j;
        }
        SaveOneMore(y, missing, j);
        SaveEmbedding(id, missing[i]);
        i := i + 1;
        j := j + 1;
      }
      stopped := Completes;
    }

    /** The transaction of refreshActiveVectorSpace that marks rows and removes their vectors. */
    method MarkStale(id: string)
      requires id in spaces
      modifies this`spaces
      ensures spaces == old(spaces)[id := old(spaces[id]).(index := Marked(old(spaces[id]).index, chunks))]
    {
      var space := spaces[id];
      var marked := MarkRows(space.index, chunks);
      spaces := spaces[id := space.(index := marked)];
    }

    /** Why a refresh does not start. */
    ghost function RefreshRefusal(): Option<Result<RefreshState, WorkflowError>>
      reads this
    {
      if active.None? then Some(Success(NoActiveSpace))
      else if active.value !in spaces then Some(Failure(Refused(SpaceNotFound)))
      else if spaces[active.value].state != Ready then Some(Failure(Refused(NotActive)))
      else None
    }

    static function RefreshedAs(end: BuildEnd, allowDegraded: bool): Result<RefreshState, WorkflowError> {
      match end
      case Completes => Success(RefreshReady)
      case GivesOut => if allowDegraded then Success(Degraded) else Failure(CallFailed)
      case Crashes => Failure(Crashed)
    }

    /** refreshActiveVectorSpace, in batches of ten; a failed call leaves what was saved and counts the
        coverage again, and the process may die before any save or before that count. */
    method Refresh(source: Option<string>, allowDegraded: bool, listing: seq<string>, faults: Faults)
      returns (r: Result<RefreshState, WorkflowError>, ghost n: nat, ghost end: BuildEnd)
      requires InOrder(listing, chunks, Selected(chunks, source))
      modifies this`spaces
      ensures StepOk(old(Value()), Step.Refresh(source, listing, n, end))
      ensures Value() == Next(old(Value()), Step.Refresh(source, listing, n, end))
      ensures r == if old(RefreshRefusal()).Some? then old(RefreshRefusal()).value else RefreshedAs(end, allowDegraded)
      ensures Explained(NoSentinel(faults), KeysOf(chunks, listing), end)
    {
      n, end := |listing|, Completes;
      if active.None? {
        return Success(NoActiveSpace), n, end;
      }
      var id := active.value;
      if id !in spaces {
        return Failure(Refused(SpaceNotFound)), n, end;
      }
      if spaces[id].state != Ready {
        return Failure(Refused(NotActive)), n, end;
      }
      var stopped: BuildEnd;
      stopped, n := RefreshSpace(id, listing, faults);
      end := stopped;
      r := RefreshedAs(stopped, allowDegraded);
    }

    method RefreshSpace(id: string, listing: seq<string>, faults: Faults) returns (stopped: BuildEnd, ghost n: nat)
      requires id in spaces && forall i | 0 <= i < |listing| :: listing[i] in chunks
      modifies this`spaces
      ensures n <= |listing| && (stopped.Completes? ==> n == |listing|)
      ensures Explained(NoSentinel(faults), KeysOf(chunks, listing), stopped)
      ensures spaces == old(spaces)[id := RefreshedSpace(old(spaces[id]), chunks, listing, n, stopped)]
    {
      ghost var space, before := spaces[id], spaces;
      MarkStale(id);
      stopped, n := SaveListed(id, KeysOf(chunks, listing), faults, before, space, Marked(space.index, chunks));
      if stopped != Crashes {
        CountCoverage(id);
      }
    }

    method SaveListed(id: string, ks: seq<Key>, faults: Faults, ghost before: map<string, Space>, ghost space: Space,
                      ghost y: Index)
      returns (stopped: BuildEnd, ghost n: nat)
      requires spaces == before[id := space.(index := y)]
      modifies this`spaces
      ensures n <= |ks| && (stopped.Completes? ==> n == |ks|) && Explained(NoSentinel(faults), ks, stopped)
      ensures spaces == before[id := space.(index := SaveAll(y, ks[..n]))]
    {
      var missing := FindMissing(spaces[id].index, ks);
      ghost var m: nat;
      assert SaveAll(y, missing[..0]) == y;
      stopped, m := RefreshBatches(id, missing, faults, before, space, y);
      MissingAreOfKeys(y, ks);
      ExplainedByMore(NoSentinel(faults), missing, ks, stopped);
      n := RefreshedSoFar(y, ks, missing, m);
    }

    method CountCoverage(id: string)
      requires id in spaces
      modifies this`spaces
      ensures var x := old(spaces[id]).index;
        spaces == old(spaces)[id := old(spaces[id]).(coverage := |CoveredRows(x, chunks)|, expected := |ListedIds(chunks)|,
                                                     version := old(spaces[id]).version + 1)]
    {
      var current := spaces[id];
      spaces := spaces[id := current.(coverage := |CoveredRows(current.index, chunks)|, expected := |ListedIds(chunks)|,
                                      version := current.version + 1)];
    }

    method RefreshBatches(id: string, missing: seq<Key>, faults: Faults, ghost before: map<string, Space>,
                          ghost space: Space, ghost y: Index)
      returns (stopped: BuildEnd, ghost m: nat)
      requires spaces == before[id := space.(index := SaveAll(y, missing[..0]))]
      modifies this`spaces
      ensures m <= |missing| && (stopped.Completes? ==> m == |missing|) && Explained(NoSentinel(faults), missing, stopped)
      ensures spaces == before[id := space.(index := SaveAll(y, missing[..m]))]
    {
      m := 0;
      var offset: nat := 0;
      while offset < |missing|
        invariant m == if offset <= |missing| then offset else |missing|
        invariant spaces == before[id := space.(index := SaveAll(y, missing[..m]))]
      {
        var limit := if offset + 10 <= |missing| then offset + 10 else |missing|;
        assert missing[offset] in Members(missing);
        if missing[offset] in faults.calls {
          return GivesOut, m;
        }
        stopped, m := RefreshBatch(id, missing, offset, limit, faults, before, space, y);
        if stopped != Completes {
          return;
        }
        offset := offset + 10;
      }
      stopped := if faults.diesLast then Crashes else Completes;
    }

    method RefreshBatch(id: string, missing: seq<Key>, offset: nat, limit: nat, faults: Faults,
                        ghost before: map<string, Space>, ghost space: Space, ghost y: Index)
      returns (stopped: BuildEnd, ghost m: nat)
      requires offset <= limit <= |missing|
      requires spaces == before[id := space.(index := SaveAll(y, missing[..offset]))]
      modifies this`spaces
      ensures m <= limit && (stopped.Completes? ==> m == limit) && Explained(NoSentinel(faults), missing, stopped)
      ensures spaces == before[id := space.(index := SaveAll(y, missing[..m]))]
    {
      var j := offset;
      m := offset;
      while j < limit
        invariant offset <= j == m <= limit
        invariant spaces == before[id := space.(index := SaveAll(y, missing[..m]))]
      {
        assert missing[j] in Members(missing);
        if missing[j] in faults.deaths || missing[j] in faults.vectors {
          return if missing[j] in faults.deaths then Crashes else GivesOut, m;
        }
        SaveOneMore(y, missing, j);
        SaveEmbedding(id, missing[j]);
        j := j + 1;
        m := m + 1;
      }
      stopped := Completes;
    }

    /** applyVectorSpacePlan, to activate. */
    method Activate(id: string, version: nat) returns (outcome: Outcome<SpaceError>)
      modifies this`spaces, this`active
      ensures outcome == ActivationRefusal(old(Value()), id, version)
      ensures Value() == Next(old(Value()), Step.Activate(id, version))
    {
      if id !in spaces {
        return Fail(SpaceNotFound);
      }
      var space := spaces[id];
      if space.version != version {
        return Fail(PlanConflict);
      }
      if space.state !in {Ready, Deprecated} || !CoverageComplete(space.index, chunks) {
        return Fail(NotReady);
      }
      if active.Some? && active.value != id && active.value in spaces {
        var previous := spaces[active.value];
        spaces := spaces[active.value := previous.(state := Deprecated, version := previous.version + 1)];
      }
      spaces := spaces[id := space.(state := Ready, version := space.version + 1)];
      active := Some(id);
      return Pass;
    }

    /** applyVectorSpacePlan, to delete: vectors, cached queries and embeddings go first. */
    method Delete(id: string, version: nat) returns (outcome: Outcome<SpaceError>)
      modifies this`spaces
      ensures outcome == DeletionRefusal(old(Value()), id, version)
      ensures Value() == Next(old(Value()), Step.Delete(id, version))
    {
      if id !in spaces {
        return Fail(SpaceNotFound);
      }
      var space := spaces[id];
      if space.version != version {
        return Fail(PlanConflict);
      }
      if active == Some(id) {
        return Fail(SpaceActive);
      }
      spaces := spaces[id := space.(index := space.index.(vectors := {}))];
      spaces := spaces[id := spaces[id].(queries := {})];
      spaces := spaces[id := spaces[id].(index := Index(map[], {}))];
      spaces := spaces[id := spaces[id].(state := Deleted, version := space.version + 1)];
      return Pass;
    }
  }

  lemma RefreshedSoFar(y: Index, ks: seq<Key>, missing: seq<Key>, m: nat) returns (n: nat)
    requires missing == Missing(y, ks) && m <= |missing|
    ensures n <= |ks| && SaveAll(y, missing[..m]) == SaveAll(y, ks[..n])
    ensures m == |missing| ==> n == |ks|
  {
    if m == |missing| {
      SavingMissing(y, y, ks);
      n := |ks|;
      assert missing[..m] == missing && ks[..n] == ks;
    } else {
      n := SavingSomeMissing(y, y, ks, m);
    }
  }
}
