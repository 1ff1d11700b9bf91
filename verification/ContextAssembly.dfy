/** Choosing the evidence an answer may cite, within a token budget, and listing the candidates
    considered (assembleContext in ask.ts). */
module ContextAssembly {
  import opened Outcomes
  import opened OrderedMaps
  import opened Grounding

  datatype Provenance = Provenance(documentId: string, revisionId: string, sourceId: string, snapshotId: string,
                                   blobSha256: string)

  /** A hydrated chunk. The estimate is a column checked to be non-negative. */
  datatype ChunkRow = ChunkRow(chunkId: string, content: Text, tokenEstimate: Option<nat>, score: Option<real>,
                               routes: Option<seq<string>>, provenance: Provenance)

  datatype GraphCandidate = GraphCandidate(chunkId: string, claimId: string, contradicts: bool,
                                           claimStatus: string, confidenceLevel: string)

  datatype Role = Seed | GraphSupport | GraphContradict

  datatype RawEntry = RawEntry(row: ChunkRow, claim: Option<GraphCandidate>, score: real, role: Role)

  datatype Item = Item(evidenceKey: string, chunkId: string, provenance: Provenance, content: Text,
                       excerptStart: nat, excerptEnd: nat, tokenEstimate: nat, role: Role,
                       claimId: Option<string>, claimStatus: Option<string>, confidenceLevel: Option<string>)

  datatype Candidate = Candidate(chunkId: string, claimId: Option<string>, rank: nat, score: real,
                                 routes: seq<string>, selected: bool)

  function Decimal(n: nat): (s: string)
    ensures s != "" && forall c | c in s :: '0' <= c <= '9'
  {
    var digit := [('0' as int + n % 10) as char];
    if n < 10 then digit else Decimal(n / 10) + digit
  }

  lemma {:induction false} DecimalIsInjective(a: nat, b: nat)
    requires Decimal(a) == Decimal(b)
    ensures a == b
  {
    var s, t := Decimal(a), Decimal(b);
    assert s[|s| - 1] == t[|t| - 1];
    assert a % 10 == b % 10;
    if a >= 10 && b >= 10 {
      assert s[..|s| - 1] == Decimal(a / 10) && t[..|t| - 1] == Decimal(b / 10);
      DecimalIsInjective(a / 10, b / 10);
    }
  }

  function EvidenceKey(ordinal: nat): string {
    "E" + Decimal(ordinal)
  }

  // ---- the entries considered ----

  function KeyedRows(rows: seq<ChunkRow>): (pairs: seq<Entry<string, ChunkRow>>)
    ensures |pairs| == |rows| && forall i | 0 <= i < |rows| :: pairs[i] == Entry(rows[i].chunkId, rows[i])
  {
    seq(|rows|, i requires 0 <= i < |rows| => Entry(rows[i].chunkId, rows[i]))
  }

  /** The graph entries from index `i`; a candidate whose chunk was not hydrated is dropped, but
      still counts for the scores. */
  function GraphEntries(candidates: seq<GraphCandidate>, rows: seq<ChunkRow>, i: nat): seq<RawEntry>
    decreases |candidates| - i
  {
    if i >= |candidates| then []
    else
      var c := candidates[i];
      var role := if c.contradicts then GraphContradict else GraphSupport;
      (match Get(MapOf(KeyedRows(rows)), c.chunkId)
       case None => []
       case Some(row) => [RawEntry(row, Some(c), 2.0 - i as real / 100.0, role)])
      + GraphEntries(candidates, rows, i + 1)
  }

  function SeedEntries(seeds: seq<ChunkRow>): seq<RawEntry> {
    seq(|seeds|, i requires 0 <= i < |seeds| =>
      var base := if seeds[i].score.Some? then seeds[i].score.value else 0.0;
      RawEntry(seeds[i], None, base + 1.0 - i as real / 100.0, Seed))
  }

  function Raw(seeds: seq<ChunkRow>, candidates: seq<GraphCandidate>, rows: seq<ChunkRow>): seq<RawEntry> {
    GraphEntries(candidates, rows, 0) + SeedEntries(seeds)
  }

  // ---- the same, without the lists: where evidence comes from ----

  /** A graph candidate or a seed, by its place among its like. */
  datatype Origin = FromGraph(index: nat) | FromSeed(index: nat)

  datatype Inputs = Inputs(seeds: seq<ChunkRow>, candidates: seq<GraphCandidate>, rows: seq<ChunkRow>)

  /** Graph candidates come before seeds, and each in their own order. */
  predicate Before(o: Origin, p: Origin) {
    (o.FromGraph? && p.FromSeed?) || (o.FromGraph? == p.FromGraph? && o.index < p.index)
  }

  predicate InRange(inputs: Inputs, o: Origin) {
    o.index < if o.FromGraph? then |inputs.candidates| else |inputs.seeds|
  }

  /** A candidate counts only if its chunk was hydrated. */
  ghost predicate Considered(inputs: Inputs, o: Origin) {
    InRange(inputs, o) && (o.FromGraph? ==> Hydrated(inputs.rows, inputs.candidates[o.index].chunkId))
  }

  ghost predicate Hydrated(rows: seq<ChunkRow>, chunkId: string) {
    exists n :: 0 <= n < |rows| && rows[n].chunkId == chunkId
  }

  /** Of several rows with one chunk id the last counts. */
  ghost predicate IsLastRow(rows: seq<ChunkRow>, chunkId: string, row: ChunkRow) {
    exists n :: 0 <= n < |rows| && rows[n] == row && row.chunkId == chunkId
                && forall m | n < m < |rows| :: rows[m].chunkId != chunkId
  }

  ghost predicate RowOf(inputs: Inputs, o: Origin, row: ChunkRow)
    requires InRange(inputs, o)
  {
    match o
    case FromGraph(i) => IsLastRow(inputs.rows, inputs.candidates[i].chunkId, row)
    case FromSeed(i) => row == inputs.seeds[i]
  }

  function ScoreOf(inputs: Inputs, o: Origin): real
    requires InRange(inputs, o)
  {
    match o
    case FromGraph(i) => 2.0 - i as real / 100.0
    case FromSeed(i) =>
      (if inputs.seeds[i].score.Some? then inputs.seeds[i].score.value else 0.0) + 1.0 - i as real / 100.0
  }

  function RoleOf(inputs: Inputs, o: Origin): Role
    requires InRange(inputs, o)
  {
    if o.FromSeed? then Seed
    else if inputs.candidates[o.index].contradicts then GraphContradict
    else GraphSupport
  }

  function ClaimOf(inputs: Inputs, o: Origin): Option<GraphCandidate>
    requires InRange(inputs, o)
  {
    if o.FromSeed? then None else Some(inputs.candidates[o.index])
  }

  /** A chunk with the claim it is evidence for. */
  function IdentityOf(inputs: Inputs, o: Origin): string
    requires InRange(inputs, o)
  {
    match o
    case FromGraph(i) => inputs.candidates[i].chunkId + "|" + inputs.candidates[i].claimId
    case FromSeed(i) => inputs.seeds[i].chunkId + "|seed"
  }

  predicate SameIdentity(inputs: Inputs, o: Origin, p: Origin) {
    InRange(inputs, o) && InRange(inputs, p) && IdentityOf(inputs, o) == IdentityOf(inputs, p)
  }

  ghost predicate EntryFrom(inputs: Inputs, e: RawEntry, o: Origin) {
    && InRange(inputs, o) && RowOf(inputs, o, e.row)
    && e.claim == ClaimOf(inputs, o) && e.score == ScoreOf(inputs, o) && e.role == RoleOf(inputs, o)
  }

  /** The entries come from these origins, which are in order and leave out nothing considered. */
  ghost predicate ComeFrom(inputs: Inputs, raw: seq<RawEntry>, origins: seq<Origin>) {
    && |origins| == |raw|
    && (forall n | 0 <= n < |raw| :: EntryFrom(inputs, raw[n], origins[n]) && Considered(inputs, origins[n]))
    && (forall m, n | 0 <= m < n < |raw| :: Before(origins[m], origins[n]))
    && (forall o | Considered(inputs, o) :: o in origins)
  }

  lemma {:induction false} LastRowIsThere(rows: seq<ChunkRow>, chunkId: string) returns (n: nat)
    requires Hydrated(rows, chunkId)
    ensures n < |rows| && rows[n].chunkId == chunkId && forall m | n < m < |rows| :: rows[m].chunkId != chunkId
  {
    if rows[|rows| - 1].chunkId == chunkId {
      n := |rows| - 1;
    } else {
      n := LastRowIsThere(rows[..|rows| - 1], chunkId);
    }
  }

  lemma {:induction false} RowIsTheLast(rows: seq<ChunkRow>, chunkId: string)
    ensures var found := Get(MapOf(KeyedRows(rows)), chunkId);
      (found.Some? <==> Hydrated(rows, chunkId)) && (found.Some? ==> IsLastRow(rows, chunkId, found.value))
  {
    var pairs := KeyedRows(rows);
    if Get(MapOf(pairs), chunkId).Some? {
      var n := FoundInPairs(pairs, chunkId);
      assert rows[n].chunkId == chunkId;
    }
    if Hydrated(rows, chunkId) {
      var n := LastRowIsThere(rows, chunkId);
      MapGets(pairs, n);
    }
  }

  lemma {:induction false} GraphOrigins(inputs: Inputs, i: nat) returns (origins: seq<Origin>)
    requires i <= |inputs.candidates|
    ensures var entries := GraphEntries(inputs.candidates, inputs.rows, i);
      && |origins| == |entries|
      && (forall n | 0 <= n < |origins| :: origins[n].FromGraph? && i <= origins[n].index
            && EntryFrom(inputs, entries[n], origins[n]) && Considered(inputs, origins[n]))
      && (forall m, n | 0 <= m < n < |origins| :: origins[m].index < origins[n].index)
      && (forall o | Considered(inputs, o) && o.FromGraph? && i <= o.index :: o in origins)
    decreases |inputs.candidates| - i
  {
    if i == |inputs.candidates| {
      origins := [];
    } else {
      var later := GraphOrigins(inputs, i + 1);
      RowIsTheLast(inputs.rows, inputs.candidates[i].chunkId);
      origins := (if Hydrated(inputs.rows, inputs.candidates[i].chunkId) then [FromGraph(i)] else []) + later;
    }
  }

  lemma SeedOrigins(inputs: Inputs) returns (origins: seq<Origin>)
    ensures var entries := SeedEntries(inputs.seeds);
      && |origins| == |entries| == |inputs.seeds|
      && forall n | 0 <= n < |origins| :: origins[n] == FromSeed(n)
            && EntryFrom(inputs, entries[n], origins[n]) && Considered(inputs, origins[n])
  {
    origins := seq(|inputs.seeds|, i requires 0 <= i < |inputs.seeds| => FromSeed(i));
  }

  /** Entry by entry, each origin at its place. */
  ghost predicate EachFrom(inputs: Inputs, entries: seq<RawEntry>, origins: seq<Origin>) {
    && |origins| == |entries|
    && forall n | 0 <= n < |entries| :: EntryFrom(inputs, entries[n], origins[n]) && Considered(inputs, origins[n])
  }

  lemma {:induction false} EachFromJoins(inputs: Inputs, a: seq<RawEntry>, b: seq<RawEntry>, first: seq<Origin>, second: seq<Origin>)
    requires EachFrom(inputs, a, first) && EachFrom(inputs, b, second)
    ensures EachFrom(inputs, a + b, first + second)
  {
  }

  lemma {:induction false} OrderJoins(first: seq<Origin>, second: seq<Origin>)
    requires (forall n | 0 <= n < |first| :: first[n].FromGraph?) && (forall n | 0 <= n < |second| :: second[n] == FromSeed(n))
    requires forall m, n | 0 <= m < n < |first| :: first[m].index < first[n].index
    ensures forall m, n | 0 <= m < n < |first + second| :: Before((first + second)[m], (first + second)[n])
  {
  }

  lemma {:induction false} RawComesFrom(inputs: Inputs) returns (origins: seq<Origin>)
    ensures ComeFrom(inputs, Raw(inputs.seeds, inputs.candidates, inputs.rows), origins)
  {
    var first := GraphOrigins(inputs, 0);
    var second := SeedOrigins(inputs);
    EachFromJoins(inputs, GraphEntries(inputs.candidates, inputs.rows, 0), SeedEntries(inputs.seeds), first, second);
    OrderJoins(first, second);
    origins := first + second;
    forall o | Considered(inputs, o) ensures o in origins {
      assert o.FromSeed? ==> second[o.index] == o;
    }
  }

  /** The identity the selecting loop deduplicates by. */
  function Identity(e: RawEntry): string {
    e.row.chunkId + "|" + (if e.claim.Some? then e.claim.value.claimId else "seed")
  }

  /** An empty claim id counts as absent when it is stored. */
  function StoredClaimId(e: RawEntry): Option<string> {
    if e.claim.Some? && e.claim.value.claimId != "" then Some(e.claim.value.claimId) else None
  }

  function StoredKey(chunkId: string, claimId: Option<string>): string {
    chunkId + "|" + (if claimId.Some? then claimId.value else "seed")
  }

  function Keyed(raw: seq<RawEntry>): (pairs: seq<Entry<string, RawEntry>>)
    ensures |pairs| == |raw| && forall i | 0 <= i < |raw| :: pairs[i] == Entry(Identity(raw[i]), raw[i])
  {
    seq(|raw|, i requires 0 <= i < |raw| => Entry(Identity(raw[i]), raw[i]))
  }

  /** Graph then seed entries, each identity once, at its first occurrence. */
  function Distinct(raw: seq<RawEntry>): seq<Entry<string, RawEntry>> {
    Firsts(Keyed(raw))
  }

  // ---- the evidence chosen ----

  function Min(a: int, b: int): int {
    if a <= b then a else b
  }

  function Max(a: int, b: int): int {
    if a <= b then b else a
  }

  /** The stored estimate, or a token for every four characters begun. */
  function Estimate(row: ChunkRow): (tokens: nat)
    ensures row.tokenEstimate.Some? ==> tokens == row.tokenEstimate.value
    ensures row.tokenEstimate.None? ==> 4 * tokens - 4 < |row.content| <= 4 * tokens
  {
    match row.tokenEstimate
    case Some(n) => n
    case None => (|row.content| + 3) / 4
  }

  /** The item for an entry, given its ordinal and the tokens still available. */
  function ItemFor(e: RawEntry, ordinal: nat, available: nat): Item {
    var tokens := Min(Estimate(e.row), available);
    Item(EvidenceKey(ordinal), e.row.chunkId, e.row.provenance, e.row.content,
         0, Min(|e.row.content|, Max(1, tokens * 4)), tokens, e.role, StoredClaimId(e),
         if e.claim.Some? then Some(e.claim.value.claimStatus) else None,
         if e.claim.Some? then Some(e.claim.value.confidenceLevel) else None)
  }

  function Spent(items: seq<Item>): nat {
    if items == [] then 0 else Spent(items[..|items| - 1]) + items[|items| - 1].tokenEstimate
  }

  /** The items are made from the first of the distinct entries, each with what the earlier ones
      left of the budget, and stop only at the end or below 64 tokens. */
  predicate Selects(items: seq<Item>, distinct: seq<Entry<string, RawEntry>>, budget: int) {
    && MadeFrom(items, distinct, budget)
    && (|items| < |distinct| ==> budget - Spent(items) < 64)
  }

  predicate MadeFrom(items: seq<Item>, distinct: seq<Entry<string, RawEntry>>, budget: int) {
    && |items| <= |distinct|
    && forall k | 0 <= k < |items| :: MadeAt(items, distinct, budget, k)
  }

  predicate MadeAt(items: seq<Item>, distinct: seq<Entry<string, RawEntry>>, budget: int, k: nat)
    requires k < |items| <= |distinct|
  {
    && budget - Spent(items[..k]) >= 64
    && items[k] == ItemFor(distinct[k].value, k + 1, budget - Spent(items[..k]))
  }

  // ---- the candidates listed ----

  function SelectedKeys(items: seq<Item>): set<string> {
    set i | 0 <= i < |items| :: StoredKey(items[i].chunkId, items[i].claimId)
  }

  function CandidateFor(e: RawEntry, rank: nat, selected: set<string>): Candidate {
    var claimId := StoredClaimId(e);
    Candidate(e.row.chunkId, claimId, rank, e.score,
              if claimId.Some? then ["graph"] else if e.row.routes.Some? then e.row.routes.value else ["fts"],
              StoredKey(e.row.chunkId, claimId) in selected)
  }

  function CandidatePairs(raw: seq<RawEntry>, selected: set<string>): (pairs: seq<Entry<string, Candidate>>)
    ensures |pairs| == |raw|
    ensures forall i | 0 <= i < |raw| ::
      pairs[i] == Entry(StoredKey(raw[i].row.chunkId, StoredClaimId(raw[i])), CandidateFor(raw[i], i + 1, selected))
  {
    seq(|raw|, i requires 0 <= i < |raw| =>
      Entry(StoredKey(raw[i].row.chunkId, StoredClaimId(raw[i])), CandidateFor(raw[i], i + 1, selected)))
  }

  /** `[...new Map(pairs).values()]`, ranked anew. */
  function UniqueCandidates(raw: seq<RawEntry>, items: seq<Item>): (cs: seq<Candidate>)
    ensures |cs| == |MapOf(CandidatePairs(raw, SelectedKeys(items)))|
    ensures forall k | 0 <= k < |cs| ::
      cs[k] == MapOf(CandidatePairs(raw, SelectedKeys(items)))[k].value.(rank := k + 1)
  {
    var kept := MapOf(CandidatePairs(raw, SelectedKeys(items)));
    seq(|kept|, k requires 0 <= k < |kept| => kept[k].value.(rank := k + 1))
  }

  /** assembleContext: the loop marks an identity as seen before it looks at the budget. */
  method AssembleContext(seeds: seq<ChunkRow>, graphCandidates: seq<GraphCandidate>, graphRows: seq<ChunkRow>,
                         budget: int)
    returns (items: seq<Item>, candidates: seq<Candidate>)
    ensures Selects(items, Distinct(Raw(seeds, graphCandidates, graphRows)), budget)
    ensures Spent(items) <= Max(budget, 0)
    ensures candidates == UniqueCandidates(Raw(seeds, graphCandidates, graphRows), items)
    ensures TakenInOrder(Inputs(seeds, graphCandidates, graphRows), items, budget)
    ensures ListedInOrder(Inputs(seeds, graphCandidates, graphRows), items, candidates)
  {
    var raw := Raw(seeds, graphCandidates, graphRows);
    var seen: set<string> := {};
    items := [];
    var used: nat := 0;
    var i := 0;
    while i < |raw|
      invariant 0 <= i <= |raw|
      invariant Assembled(raw, i, seen, items, used, budget)
      invariant i == |raw| ==> Selects(items, Distinct(raw), budget)
    {
      var entry := raw[i];
      if Identity(entry) !in seen {
        seen := seen + {Identity(entry)};
        var available := budget - used;
        if available < 64 {
          StopsShort(raw, i, seen - {Identity(entry)}, items, used, budget);
          break;
        }
        var item := ItemFor(entry, |items| + 1, available);
        OneMore(raw, i, seen - {Identity(entry)}, items, used, budget);
        items := items + [item];
        used := used + item.tokenEstimate;
      } else {
        SeenAlready(raw, i, seen, items, used, budget);
      }
      i := i + 1;
      WholeIsAssembled(raw, i, seen, items, used, budget);
    }
    candidates := UniqueCandidates(raw, items);
    InOrder(Inputs(seeds, graphCandidates, graphRows), items, budget);
  }

  ghost predicate TakenInOrder(inputs: Inputs, items: seq<Item>, budget: int) {
    exists origins :: Taken(inputs, items, budget, origins)
  }

  ghost predicate ListedInOrder(inputs: Inputs, items: seq<Item>, candidates: seq<Candidate>) {
    exists firsts, lasts :: Listed(inputs, items, candidates, firsts, lasts)
  }

  lemma InOrder(inputs: Inputs, items: seq<Item>, budget: int)
    requires Selects(items, Distinct(Raw(inputs.seeds, inputs.candidates, inputs.rows)), budget)
    ensures TakenInOrder(inputs, items, budget)
    ensures ListedInOrder(inputs, items, UniqueCandidates(Raw(inputs.seeds, inputs.candidates, inputs.rows), items))
  {
    var origins := SelectionIsTaken(inputs, items, budget);
    var firsts, lasts := CandidatesAreListed(inputs, items);
  }

  /** What the loop has done by entry `i`. */
  ghost predicate Assembled(raw: seq<RawEntry>, i: nat, seen: set<string>, items: seq<Item>, used: nat, budget: int) {
    && i <= |raw|
    && used == Spent(items) <= Max(budget, 0)
    && (forall s :: s in seen <==> s in Keys(Distinct(raw[..i])))
    && |items| == |Distinct(raw[..i])| && MadeFrom(items, Distinct(raw[..i]), budget)
  }

  lemma WholeIsAssembled(raw: seq<RawEntry>, i: nat, seen: set<string>, items: seq<Item>, used: nat, budget: int)
    requires Assembled(raw, i, seen, items, used, budget)
    ensures i == |raw| ==> Selects(items, Distinct(raw), budget)
  {
    assert i == |raw| ==> raw[..i] == raw;
  }

  lemma SeenAlready(raw: seq<RawEntry>, i: nat, seen: set<string>, items: seq<Item>, used: nat, budget: int)
    requires Assembled(raw, i, seen, items, used, budget) && i < |raw| && Identity(raw[i]) in seen
    ensures Assembled(raw, i + 1, seen, items, used, budget)
  {
    DistinctStep(raw, i);
  }

  lemma StopsShort(raw: seq<RawEntry>, i: nat, seen: set<string>, items: seq<Item>, used: nat, budget: int)
    requires Assembled(raw, i, seen, items, used, budget) && i < |raw| && Identity(raw[i]) !in seen
    requires budget - used < 64
    ensures Selects(items, Distinct(raw), budget)
  {
    DistinctPrefix(raw, i);
    MadeFromPrefix(items, Distinct(raw[..i]), Distinct(raw), budget);
  }

  lemma OneMore(raw: seq<RawEntry>, i: nat, seen: set<string>, items: seq<Item>, used: nat, budget: int)
    requires Assembled(raw, i, seen, items, used, budget) && i < |raw| && Identity(raw[i]) !in seen
    requires budget - used >= 64
    ensures var item := ItemFor(raw[i], |items| + 1, budget - used);
      Assembled(raw, i + 1, seen + {Identity(raw[i])}, items + [item], used + item.tokenEstimate, budget)
  {
    var item := ItemFor(raw[i], |items| + 1, budget - used);
    DistinctStep(raw, i);
    MadeFromOneMore(items, Distinct(raw[..i]), budget, raw[i], item, items + [item], Distinct(raw[..i + 1]));
    var before := Distinct(raw[..i]);
    assert Keys(before + [Entry(Identity(raw[i]), raw[i])]) == Keys(before) + [Identity(raw[i])];
  }

  lemma DistinctStep(raw: seq<RawEntry>, i: nat)
    requires i < |raw|
    ensures var before, entry := Distinct(raw[..i]), raw[i];
      Distinct(raw[..i + 1]) == if Identity(entry) in Keys(before) then before else before + [Entry(Identity(entry), entry)]
  {
    var here := Keyed(raw[..i + 1]);
    assert here[..i] == Keyed(raw[..i]);
  }

  lemma DistinctPrefix(raw: seq<RawEntry>, i: nat)
    requires i <= |raw|
    ensures Distinct(raw[..i]) <= Distinct(raw)
  {
    assert Keyed(raw)[..i] == Keyed(raw[..i]);
    FirstsOfPrefix(Keyed(raw), i);
  }

  lemma MadeFromOneMore(items: seq<Item>, distinct: seq<Entry<string, RawEntry>>, budget: int, entry: RawEntry,
                        item: Item, more: seq<Item>, longer: seq<Entry<string, RawEntry>>)
    requires MadeFrom(items, distinct, budget) && |items| == |distinct|
    requires budget - Spent(items) >= 64 && item == ItemFor(entry, |items| + 1, budget - Spent(items))
    requires more == items + [item] && longer == distinct + [Entry(Identity(entry), entry)]
    ensures MadeFrom(more, longer, budget)
    ensures Spent(more) == Spent(items) + item.tokenEstimate <= budget
  {
    assert more[..|items|] == items;
    forall k | 0 <= k < |more| ensures MadeAt(more, longer, budget, k) {
      if k < |items| {
        assert more[..k] == items[..k];
        assert MadeAt(items, distinct, budget, k);
      }
    }
  }

  lemma MadeFromPrefix(items: seq<Item>, some: seq<Entry<string, RawEntry>>, all: seq<Entry<string, RawEntry>>, budget: int)
    requires MadeFrom(items, some, budget) && some <= all
    ensures MadeFrom(items, all, budget)
  {
    forall k | 0 <= k < |items| ensures MadeAt(items, all, budget, k) {
      assert MadeAt(items, some, budget, k);
    }
  }

  // ---- what the two deduplications agree on ----

  predicate ClaimsNamed(raw: seq<RawEntry>) {
    forall i | 0 <= i < |raw| :: raw[i].claim.Some? ==> raw[i].claim.value.claimId != ""
  }

  lemma StoredKeyIsIdentity(e: RawEntry)
    ensures (StoredKey(e.row.chunkId, StoredClaimId(e)) == Identity(e)) <==>
            (e.claim.Some? ==> e.claim.value.claimId != "")
  {
    if e.claim.Some? && e.claim.value.claimId == "" {
      assert |Identity(e)| == |e.row.chunkId| + 1;
      assert |StoredKey(e.row.chunkId, StoredClaimId(e))| == |e.row.chunkId| + 1 + |"seed"|;
    }
  }

  lemma CandidateKeys(raw: seq<RawEntry>, selected: set<string>)
    requires ClaimsNamed(raw)
    ensures Keys(MapOf(CandidatePairs(raw, selected))) == Keys(Distinct(raw))
  {
    var pairs := CandidatePairs(raw, selected);
    MapAndFirstsAgree(pairs);
    forall i | 0 <= i < |raw| ensures pairs[i].key == Identity(raw[i]) {
      StoredKeyIsIdentity(raw[i]);
    }
    assert Keys(pairs) == Keys(Keyed(raw));
    FirstsDependOnKeys(pairs, Keyed(raw));
  }

  predicate EndsInBar(s: string) {
    s != "" && s[|s| - 1] == '|'
  }

  lemma CandidateKeyHasClaim(raw: seq<RawEntry>, selected: set<string>, k: nat)
    requires forall j | 0 <= j < |raw| :: raw[j].claim.Some? ==> !EndsInBar(raw[j].claim.value.claimId)
    requires k < |MapOf(CandidatePairs(raw, selected))|
    ensures !EndsInBar(MapOf(CandidatePairs(raw, selected))[k].key)
  {
    var j := MapHoldsTheLast(CandidatePairs(raw, selected), k);
    StoredKeyHasClaim(raw[j].row.chunkId, StoredClaimId(raw[j]));
  }

  lemma StoredKeyHasClaim(chunkId: string, claimId: Option<string>)
    requires claimId.Some? ==> claimId.value != "" && !EndsInBar(claimId.value)
    ensures !EndsInBar(StoredKey(chunkId, claimId))
  {
  }

  lemma EmptyClaimIsNoCandidate(raw: seq<RawEntry>, selected: set<string>, i: nat)
    requires forall j | 0 <= j < |raw| :: raw[j].claim.Some? ==> !EndsInBar(raw[j].claim.value.claimId)
    requires i < |raw| && raw[i].claim.Some? && raw[i].claim.value.claimId == ""
    ensures Identity(raw[i]) in Keys(Distinct(raw))
    ensures Identity(raw[i]) !in Keys(MapOf(CandidatePairs(raw, selected)))
  {
    FirstsHaveEveryKey(Keyed(raw), i);
    assert EndsInBar(Identity(raw[i]));
    var kept := MapOf(CandidatePairs(raw, selected));
    forall k | 0 <= k < |kept| ensures Keys(kept)[k] != Identity(raw[i]) {
      CandidateKeyHasClaim(raw, selected, k);
    }
  }

  /** The candidates have the identities of the distinct entries exactly when no claim id is
      empty: an empty one counts as an identity of its own in the loop, but as no claim at all
      when it is stored. (Claim ids that end in the separator are set aside.) */
  lemma CandidateKeysAgreeIff(raw: seq<RawEntry>, selected: set<string>)
    requires forall j | 0 <= j < |raw| :: raw[j].claim.Some? ==> !EndsInBar(raw[j].claim.value.claimId)
    ensures Keys(MapOf(CandidatePairs(raw, selected))) == Keys(Distinct(raw)) <==> ClaimsNamed(raw)
  {
    if ClaimsNamed(raw) {
      CandidateKeys(raw, selected);
    } else {
      var i :| 0 <= i < |raw| && raw[i].claim.Some? && raw[i].claim.value.claimId == "";
      EmptyClaimIsNoCandidate(raw, selected, i);
    }
  }

  lemma DistinctEntry(raw: seq<RawEntry>, k: nat)
    requires k < |Distinct(raw)|
    ensures Distinct(raw)[k].key == Identity(Distinct(raw)[k].value)
    ensures ClaimsNamed(raw) ==>
      StoredKey(Distinct(raw)[k].value.row.chunkId, StoredClaimId(Distinct(raw)[k].value)) == Distinct(raw)[k].key
  {
    var i := FirstsAreFirst(Keyed(raw), k);
    StoredKeyIsIdentity(raw[i]);
  }

  lemma ItemHasKey(raw: seq<RawEntry>, items: seq<Item>, budget: int, j: nat)
    requires ClaimsNamed(raw) && MadeFrom(items, Distinct(raw), budget) && j < |items|
    ensures StoredKey(items[j].chunkId, items[j].claimId) == Distinct(raw)[j].key
  {
    assert MadeAt(items, Distinct(raw), budget, j);
    DistinctEntry(raw, j);
  }

  lemma SelectedExactlyTheItems(raw: seq<RawEntry>, items: seq<Item>, budget: int, k: nat)
    requires ClaimsNamed(raw) && MadeFrom(items, Distinct(raw), budget) && k < |Distinct(raw)|
    ensures Distinct(raw)[k].key in SelectedKeys(items) <==> k < |items|
  {
    FirstsHaveNoRepeats(Keyed(raw));
    if k < |items| {
      ItemHasKey(raw, items, budget, k);
    }
    forall j | 0 <= j < |items| && StoredKey(items[j].chunkId, items[j].claimId) == Distinct(raw)[k].key
      ensures j == k
    {
      ItemHasKey(raw, items, budget, j);
      assert Keys(Distinct(raw))[j] == Keys(Distinct(raw))[k];
    }
  }

  /** The candidate list and the evidence agree: one candidate an identity, in the order of first
      occurrence, ranked from 1, and marked selected exactly when it became evidence; its score
      and routes are those of the last entry with that identity. */
  lemma CandidatesAgree(raw: seq<RawEntry>, items: seq<Item>, budget: int, k: nat) returns (i: nat)
    requires ClaimsNamed(raw) && Selects(items, Distinct(raw), budget)
    requires k < |Distinct(raw)|
    ensures |UniqueCandidates(raw, items)| == |Distinct(raw)|
    ensures var c := UniqueCandidates(raw, items)[k];
      && StoredKey(c.chunkId, c.claimId) == Distinct(raw)[k].key
      && c.rank == k + 1
      && (c.selected <==> k < |items|)
      && i < |raw| && c == CandidateFor(raw[i], k + 1, SelectedKeys(items))
      && (forall j | i < j < |raw| :: Identity(raw[j]) != Identity(raw[i]))
  {
    var pairs := CandidatePairs(raw, SelectedKeys(items));
    var kept := MapOf(pairs);
    CandidateKeys(raw, SelectedKeys(items));
    assert |kept| == |Keys(kept)| == |Distinct(raw)|;
    i := MapHoldsTheLast(pairs, k);
    assert kept[k].key == Keys(kept)[k] == Distinct(raw)[k].key;
    SelectedExactlyTheItems(raw, items, budget, k);
    forall j | i < j < |raw| ensures Identity(raw[j]) != Identity(raw[i]) {
      StoredKeyIsIdentity(raw[i]);
      StoredKeyIsIdentity(raw[j]);
      assert pairs[j].key != pairs[i].key;
    }
  }

  /** Evidence keys name one item each, so an answer's citation names one item. */
  lemma EvidenceKeysAreDistinct(items: seq<Item>, distinct: seq<Entry<string, RawEntry>>, budget: int, j: nat, k: nat)
    requires MadeFrom(items, distinct, budget) && j < |items| && k < |items|
    ensures items[j].evidenceKey == items[k].evidenceKey <==> j == k
  {
    assert MadeAt(items, distinct, budget, j) && MadeAt(items, distinct, budget, k);
    if items[j].evidenceKey == items[k].evidenceKey {
      assert items[j].evidenceKey[1..] == items[k].evidenceKey[1..];
      DecimalIsInjective(j + 1, k + 1);
    }
  }

  /** The selection is determined: there is one list of items for given entries and budget. */
  lemma {:induction false} SelectionIsDetermined(a: seq<Item>, b: seq<Item>, distinct: seq<Entry<string, RawEntry>>, budget: int)
    requires Selects(a, distinct, budget) && Selects(b, distinct, budget)
    ensures a == b
  {
    SelectionsAgree(a, b, distinct, budget, Min(|a|, |b|));
    NotShorter(a, b, distinct, budget);
    NotShorter(b, a, distinct, budget);
    assert a[..|a|] == a && b[..|b|] == b;
  }

  lemma NotShorter(a: seq<Item>, b: seq<Item>, distinct: seq<Entry<string, RawEntry>>, budget: int)
    requires Selects(a, distinct, budget) && Selects(b, distinct, budget)
    ensures |b| <= |a|
  {
    SelectionsAgree(a, b, distinct, budget, Min(|a|, |b|));
    assert a[..|a|] == a;
    assert |a| < |b| ==> MadeAt(b, distinct, budget, |a|);
  }

  lemma {:induction false} SelectionsAgree(a: seq<Item>, b: seq<Item>, distinct: seq<Entry<string, RawEntry>>, budget: int, n: nat)
    requires MadeFrom(a, distinct, budget) && MadeFrom(b, distinct, budget) && n <= |a| && n <= |b|
    ensures a[..n] == b[..n]
  {
    if n > 0 {
      SelectionsAgree(a, b, distinct, budget, n - 1);
      assert MadeAt(a, distinct, budget, n - 1) && MadeAt(b, distinct, budget, n - 1);
      assert a[..n] == a[..n - 1] + [a[n - 1]] && b[..n] == b[..n - 1] + [b[n - 1]];
    }
  }

  // ---- the outcome by origins ----

  /** The item an origin yields, given its ordinal and the tokens still available. */
  ghost predicate ItemFrom(inputs: Inputs, item: Item, o: Origin, ordinal: nat, available: int)
    requires InRange(inputs, o)
  {
    exists row :: RowOf(inputs, o, row) && ItemOfRow(inputs, item, o, row, ordinal, available)
  }

  predicate ItemOfRow(inputs: Inputs, item: Item, o: Origin, row: ChunkRow, ordinal: nat, available: int)
    requires InRange(inputs, o)
  {
    var claim := ClaimOf(inputs, o);
    && item.evidenceKey == EvidenceKey(ordinal)
    && item.chunkId == row.chunkId && item.provenance == row.provenance && item.content == row.content
    && item.role == RoleOf(inputs, o)
    && item.claimId == (if claim.Some? && claim.value.claimId != "" then Some(claim.value.claimId) else None)
    && item.claimStatus == (if claim.Some? then Some(claim.value.claimStatus) else None)
    && item.confidenceLevel == (if claim.Some? then Some(claim.value.confidenceLevel) else None)
    && item.tokenEstimate == Min(Estimate(row), available)
    && item.excerptStart == 0 && item.excerptEnd == Min(|row.content|, Max(1, item.tokenEstimate * 4))
  }

  /** The evidence, item by item: each comes from the first origin of its identity, they follow each other
      in the order of their origins, and what is missing comes after all of them and was cut off for
      less than 64 tokens. */
  ghost predicate Taken(inputs: Inputs, items: seq<Item>, budget: int, origins: seq<Origin>) {
    && |origins| == |items|
    && (forall k | 0 <= k < |items| :: TakenAt(inputs, items, budget, origins, k))
    && (forall j, k | 0 <= j < k < |items| :: Before(origins[j], origins[k]))
    && (forall k, o | 0 <= k < |items| && Considered(inputs, o) && SameIdentity(inputs, origins[k], o) ::
          o == origins[k] || Before(origins[k], o))
    && (forall o | Considered(inputs, o) && LeftOut(inputs, origins, o) :: budget - Spent(items) < 64 && AllBefore(origins, o))
  }

  ghost predicate TakenAt(inputs: Inputs, items: seq<Item>, budget: int, origins: seq<Origin>, k: nat)
    requires k < |items| == |origins|
  {
    && Considered(inputs, origins[k]) && budget - Spent(items[..k]) >= 64
    && ItemFrom(inputs, items[k], origins[k], k + 1, budget - Spent(items[..k]))
  }

  ghost predicate AllBefore(origins: seq<Origin>, o: Origin) {
    forall k | 0 <= k < |origins| :: Before(origins[k], o)
  }

  ghost predicate LeftOut(inputs: Inputs, origins: seq<Origin>, o: Origin) {
    forall k | 0 <= k < |origins| :: !SameIdentity(inputs, origins[k], o)
  }

  lemma EntryIdentity(inputs: Inputs, e: RawEntry, o: Origin)
    requires EntryFrom(inputs, e, o)
    ensures Identity(e) == IdentityOf(inputs, o)
  {
  }

  lemma {:induction false} ItemComesFrom(inputs: Inputs, items: seq<Item>, distinct: seq<Entry<string, RawEntry>>, budget: int,
                                         k: nat, o: Origin)
    requires MadeFrom(items, distinct, budget) && k < |items| && EntryFrom(inputs, distinct[k].value, o)
    ensures budget - Spent(items[..k]) >= 64
    ensures ItemFrom(inputs, items[k], o, k + 1, budget - Spent(items[..k]))
  {
    assert MadeAt(items, distinct, budget, k);
    var row := distinct[k].value.row;
    assert RowOf(inputs, o, row) && ItemOfRow(inputs, items[k], o, row, k + 1, budget - Spent(items[..k]));
  }

  /** The place of an origin among the entries. */
  lemma {:induction false} PlaceOf(inputs: Inputs, raw: seq<RawEntry>, all: seq<Origin>, o: Origin) returns (n: nat)
    requires ComeFrom(inputs, raw, all) && Considered(inputs, o)
    ensures n < |raw| && all[n] == o && Identity(raw[n]) == IdentityOf(inputs, o)
  {
    n :| 0 <= n < |all| && all[n] == o;
    EntryIdentity(inputs, raw[n], o);
  }

  /** The origins of the distinct entries: the first of each identity. */
  ghost predicate FirstOrigins(inputs: Inputs, distinct: seq<Entry<string, RawEntry>>, firsts: seq<Origin>) {
    && |firsts| == |distinct|
    && (forall k | 0 <= k < |firsts| :: Considered(inputs, firsts[k]) && EntryFrom(inputs, distinct[k].value, firsts[k]))
    && (forall j, k | 0 <= j < k < |firsts| :: Before(firsts[j], firsts[k]))
    && (forall o | Considered(inputs, o) :: exists k :: 0 <= k < |firsts| && FirstOf(inputs, firsts[k], o))
  }

  /** One identity, and not after it. */
  predicate FirstOf(inputs: Inputs, first: Origin, o: Origin) {
    SameIdentity(inputs, first, o) && (o == first || Before(first, o))
  }

  lemma {:induction false} FirstsCover(inputs: Inputs, raw: seq<RawEntry>, all: seq<Origin>, at: seq<nat>, o: Origin)
    returns (k: nat)
    requires ComeFrom(inputs, raw, all) && PlacesOfFirsts(Keyed(raw), at) && Considered(inputs, o)
    ensures k < |at| && at[k] < |all| && FirstOf(inputs, all[at[k]], o)
  {
    var n := PlaceOf(inputs, raw, all, o);
    k := KeyHasPlace(Keyed(raw), at, n);
    EntryIdentity(inputs, raw[at[k]], all[at[k]]);
  }

  lemma {:induction false} OriginsAt(all: seq<Origin>, at: seq<nat>) returns (origins: seq<Origin>)
    requires forall k | 0 <= k < |at| :: at[k] < |all|
    ensures |origins| == |at| && forall k | 0 <= k < |at| :: origins[k] == all[at[k]]
  {
    origins := seq(|at|, k requires 0 <= k < |at| => all[at[k]]);
  }

  lemma {:induction false} FirstIsFrom(inputs: Inputs, raw: seq<RawEntry>, all: seq<Origin>, at: seq<nat>, k: nat)
    requires ComeFrom(inputs, raw, all) && PlacesOfFirsts(Keyed(raw), at) && k < |at|
    ensures k < |Distinct(raw)| && at[k] < |all|
    ensures Considered(inputs, all[at[k]]) && EntryFrom(inputs, Distinct(raw)[k].value, all[at[k]])
  {
    assert NewAt(Keyed(raw), at[k]);
    assert Keyed(raw)[at[k]] == Distinct(raw)[k];
  }

  lemma {:induction false} FirstsComeFrom(inputs: Inputs, raw: seq<RawEntry>, all: seq<Origin>) returns (firsts: seq<Origin>)
    requires ComeFrom(inputs, raw, all)
    ensures FirstOrigins(inputs, Distinct(raw), firsts)
  {
    var at := FirstPlaces(Keyed(raw));
    PlacesInRange(Keyed(raw), at);
    firsts := OriginsAt(all, at);
    forall k | 0 <= k < |firsts|
      ensures Considered(inputs, firsts[k]) && EntryFrom(inputs, Distinct(raw)[k].value, firsts[k])
    {
      FirstIsFrom(inputs, raw, all, at, k);
    }
    forall o | Considered(inputs, o) ensures exists k :: 0 <= k < |firsts| && FirstOf(inputs, firsts[k], o) {
      var k := FirstsCover(inputs, raw, all, at, o);
      assert FirstOf(inputs, firsts[k], o);
    }
  }

  lemma BeforeIsOrder(o: Origin, p: Origin, q: Origin)
    ensures Before(o, p) && Before(p, q) ==> Before(o, q)
    ensures !(Before(o, p) && Before(p, o)) && !Before(o, o)
  {
  }

  ghost predicate AllDiffer(inputs: Inputs, origins: seq<Origin>) {
    forall j, k | 0 <= j < k < |origins| :: !SameIdentity(inputs, origins[j], origins[k])
  }

  lemma {:induction false} FirstIsBefore(inputs: Inputs, firsts: seq<Origin>, k: nat, l: nat, o: Origin)
    requires AllDiffer(inputs, firsts)
    requires k < |firsts| && l < |firsts| && FirstOf(inputs, firsts[l], o) && SameIdentity(inputs, firsts[k], o)
    ensures o == firsts[k] || Before(firsts[k], o)
  {
    assert SameIdentity(inputs, firsts[k], firsts[l]) && SameIdentity(inputs, firsts[l], firsts[k]);
    assert k == l;
  }

  lemma {:induction false} LeftOutIsLate(inputs: Inputs, firsts: seq<Origin>, n: nat, l: nat, o: Origin)
    requires forall j, m | 0 <= j < m < |firsts| :: Before(firsts[j], firsts[m])
    requires n <= |firsts| && l < |firsts| && FirstOf(inputs, firsts[l], o)
    requires LeftOut(inputs, firsts[..n], o)
    ensures n <= l && AllBefore(firsts[..n], o)
  {
    forall k | 0 <= k < n ensures !SameIdentity(inputs, firsts[k], o) {
      assert firsts[..n][k] == firsts[k];
    }
    forall k | 0 <= k < n ensures Before(firsts[k], o) {
      BeforeIsOrder(firsts[k], firsts[l], o);
    }
  }

  lemma {:induction false} AllTakenAt(inputs: Inputs, distinct: seq<Entry<string, RawEntry>>, origins: seq<Origin>,
                                      items: seq<Item>, budget: int)
    requires MadeFrom(items, distinct, budget) && |origins| == |items|
    requires forall k | 0 <= k < |items| :: Considered(inputs, origins[k]) && EntryFrom(inputs, distinct[k].value, origins[k])
    ensures forall k | 0 <= k < |items| :: TakenAt(inputs, items, budget, origins, k)
  {
    forall k | 0 <= k < |items| ensures TakenAt(inputs, items, budget, origins, k) {
      ItemComesFrom(inputs, items, distinct, budget, k, origins[k]);
    }
  }

  lemma {:induction false} FirstsAreTaken(inputs: Inputs, firsts: seq<Origin>, n: nat)
    requires (forall k | 0 <= k < |firsts| :: Considered(inputs, firsts[k])) && AllDiffer(inputs, firsts) && n <= |firsts|
    requires forall o | Considered(inputs, o) :: exists k :: 0 <= k < |firsts| && FirstOf(inputs, firsts[k], o)
    ensures forall k, o | 0 <= k < n && Considered(inputs, o) && SameIdentity(inputs, firsts[k], o) ::
              o == firsts[k] || Before(firsts[k], o)
  {
    forall k, o | 0 <= k < n && Considered(inputs, o) && SameIdentity(inputs, firsts[k], o)
      ensures o == firsts[k] || Before(firsts[k], o)
    {
      var l :| 0 <= l < |firsts| && FirstOf(inputs, firsts[l], o);
      FirstIsBefore(inputs, firsts, k, l, o);
    }
  }

  lemma {:induction false} RestIsCutOff(inputs: Inputs, firsts: seq<Origin>, n: nat)
    requires (forall k | 0 <= k < |firsts| :: Considered(inputs, firsts[k])) && n <= |firsts|
    requires forall j, m | 0 <= j < m < |firsts| :: Before(firsts[j], firsts[m])
    requires forall o | Considered(inputs, o) :: exists k :: 0 <= k < |firsts| && FirstOf(inputs, firsts[k], o)
    ensures forall o | Considered(inputs, o) && LeftOut(inputs, firsts[..n], o) :: n < |firsts| && AllBefore(firsts[..n], o)
  {
    forall o | Considered(inputs, o) && LeftOut(inputs, firsts[..n], o) ensures n < |firsts| && AllBefore(firsts[..n], o) {
      var l :| 0 <= l < |firsts| && FirstOf(inputs, firsts[l], o);
      LeftOutIsLate(inputs, firsts, n, l, o);
    }
  }

  lemma {:induction false} SelectedAreTaken(inputs: Inputs, distinct: seq<Entry<string, RawEntry>>, firsts: seq<Origin>,
                                            items: seq<Item>, budget: int)
    requires FirstOrigins(inputs, distinct, firsts) && Selects(items, distinct, budget) && AllDiffer(inputs, firsts)
    ensures Taken(inputs, items, budget, firsts[..|items|])
  {
    var n := |items|;
    var origins := firsts[..n];
    AllTakenAt(inputs, distinct, origins, items, budget);
    FirstsAreTaken(inputs, firsts, n);
    RestIsCutOff(inputs, firsts, n);
  }

  lemma {:induction false} FirstsDiffer(inputs: Inputs, raw: seq<RawEntry>, firsts: seq<Origin>)
    requires FirstOrigins(inputs, Distinct(raw), firsts)
    ensures AllDiffer(inputs, firsts)
  {
    FirstsHaveNoRepeats(Keyed(raw));
    forall j, k | 0 <= j < k < |firsts| ensures !SameIdentity(inputs, firsts[j], firsts[k]) {
      DistinctEntry(raw, j);
      DistinctEntry(raw, k);
      EntryIdentity(inputs, Distinct(raw)[j].value, firsts[j]);
      EntryIdentity(inputs, Distinct(raw)[k].value, firsts[k]);
      assert Keys(Distinct(raw))[j] != Keys(Distinct(raw))[k];
    }
  }

  /** Whatever was selected from the graph and seed entries was taken in this order. */
  lemma {:induction false} SelectionIsTaken(inputs: Inputs, items: seq<Item>, budget: int) returns (origins: seq<Origin>)
    requires Selects(items, Distinct(Raw(inputs.seeds, inputs.candidates, inputs.rows)), budget)
    ensures Taken(inputs, items, budget, origins)
  {
    var raw := Raw(inputs.seeds, inputs.candidates, inputs.rows);
    var all := RawComesFrom(inputs);
    var firsts := FirstsComeFrom(inputs, raw, all);
    FirstsDiffer(inputs, raw, firsts);
    SelectedAreTaken(inputs, Distinct(raw), firsts, items, budget);
    origins := firsts[..|items|];
  }

  // ---- the candidates by origins ----

  function StoredClaimOf(inputs: Inputs, o: Origin): Option<string>
    requires InRange(inputs, o)
  {
    var claim := ClaimOf(inputs, o);
    if claim.Some? && claim.value.claimId != "" then Some(claim.value.claimId) else None
  }

  function ChunkOf(inputs: Inputs, o: Origin): string
    requires InRange(inputs, o)
  {
    if o.FromGraph? then inputs.candidates[o.index].chunkId else inputs.seeds[o.index].chunkId
  }

  /** One chunk and claim, as they are stored. */
  predicate SameStored(inputs: Inputs, o: Origin, p: Origin) {
    && InRange(inputs, o) && InRange(inputs, p)
    && StoredKey(ChunkOf(inputs, o), StoredClaimOf(inputs, o)) == StoredKey(ChunkOf(inputs, p), StoredClaimOf(inputs, p))
  }

  ghost predicate CandidateFrom(inputs: Inputs, items: seq<Item>, c: Candidate, o: Origin, rank: nat) {
    && InRange(inputs, o)
    && c.chunkId == ChunkOf(inputs, o) && c.claimId == StoredClaimOf(inputs, o)
    && c.rank == rank && c.score == ScoreOf(inputs, o)
    && (c.routes == ["graph"] <== c.claimId.Some?)
    && (c.claimId.None? ==> exists row :: RowOf(inputs, o, row) && c.routes == RoutesOf(row))
    && (c.selected <==> exists item :: item in items && StoredKey(item.chunkId, item.claimId) == StoredKey(c.chunkId, c.claimId))
  }

  function RoutesOf(row: ChunkRow): seq<string> {
    if row.routes.Some? then row.routes.value else ["fts"]
  }

  /** The candidates, one for each chunk and claim stored: in the order of their first origins, ranked from
      1, with the score and routes of their last. */
  ghost predicate Listed(inputs: Inputs, items: seq<Item>, cs: seq<Candidate>, firsts: seq<Origin>, lasts: seq<Origin>) {
    && |firsts| == |lasts| == |cs|
    && (forall k | 0 <= k < |cs| ::
          CandidateFrom(inputs, items, cs[k], lasts[k], k + 1) && Spans(inputs, firsts[k], lasts[k]))
    && (forall j, k | 0 <= j < k < |cs| :: Before(firsts[j], firsts[k]))
    && (forall o | Considered(inputs, o) :: exists k :: 0 <= k < |cs| && SameStored(inputs, firsts[k], o))
  }

  /** The first and the last origin with what is stored. */
  ghost predicate Spans(inputs: Inputs, first: Origin, last: Origin) {
    && Considered(inputs, first) && Considered(inputs, last) && SameStored(inputs, first, last)
    && forall o | Considered(inputs, o) && SameStored(inputs, first, o) ::
         (o == first || Before(first, o)) && (o == last || Before(o, last))
  }

  ghost predicate PairFrom(inputs: Inputs, items: seq<Item>, pair: Entry<string, Candidate>, o: Origin, rank: nat) {
    && CandidateFrom(inputs, items, pair.value, o, rank)
    && pair.key == StoredKey(ChunkOf(inputs, o), StoredClaimOf(inputs, o))
  }

  lemma {:induction false} PairComesFrom(inputs: Inputs, items: seq<Item>, e: RawEntry, o: Origin, rank: nat)
    requires EntryFrom(inputs, e, o)
    ensures PairFrom(inputs, items, Entry(StoredKey(e.row.chunkId, StoredClaimId(e)), CandidateFor(e, rank, SelectedKeys(items))),
                     o, rank)
  {
    var c := CandidateFor(e, rank, SelectedKeys(items));
    assert RowOf(inputs, o, e.row);
    assert c.chunkId == ChunkOf(inputs, o);
    assert c.selected <==> StoredKey(c.chunkId, c.claimId) in SelectedKeys(items);
    assert c.claimId.None? ==> c.routes == RoutesOf(e.row);
  }

  /** The pairs come from these origins. */
  ghost predicate PairsComeFrom(inputs: Inputs, items: seq<Item>, pairs: seq<Entry<string, Candidate>>, all: seq<Origin>) {
    && |pairs| == |all|
    && (forall n | 0 <= n < |all| :: Considered(inputs, all[n]) && PairFrom(inputs, items, pairs[n], all[n], n + 1))
    && (forall m, n | 0 <= m < n < |all| :: Before(all[m], all[n]))
    && (forall o | Considered(inputs, o) :: o in all)
  }

  lemma {:induction false} CandidatePairsComeFrom(inputs: Inputs, items: seq<Item>, raw: seq<RawEntry>, all: seq<Origin>)
    requires ComeFrom(inputs, raw, all)
    ensures PairsComeFrom(inputs, items, CandidatePairs(raw, SelectedKeys(items)), all)
  {
    var pairs := CandidatePairs(raw, SelectedKeys(items));
    forall n | 0 <= n < |all| ensures PairFrom(inputs, items, pairs[n], all[n], n + 1) {
      PairComesFrom(inputs, items, raw[n], all[n], n + 1);
    }
  }

  lemma {:induction false} PlacesSpan(inputs: Inputs, items: seq<Item>, pairs: seq<Entry<string, Candidate>>, all: seq<Origin>,
                                      m: nat, n: nat)
    requires PairsComeFrom(inputs, items, pairs, all) && NewAt(pairs, m) && LastAt(pairs, n) && pairs[m].key == pairs[n].key
    ensures Spans(inputs, all[m], all[n])
  {
    forall o | Considered(inputs, o) && SameStored(inputs, all[m], o)
      ensures (o == all[m] || Before(all[m], o)) && (o == all[n] || Before(o, all[n]))
    {
      var i :| 0 <= i < |all| && all[i] == o;
      assert PairFrom(inputs, items, pairs[i], all[i], i + 1) && PairFrom(inputs, items, pairs[m], all[m], m + 1);
      assert m <= i <= n;
    }
    assert PairFrom(inputs, items, pairs[n], all[n], n + 1) && PairFrom(inputs, items, pairs[m], all[m], m + 1);
  }

  lemma {:induction false} StoredHasPlace(inputs: Inputs, items: seq<Item>, pairs: seq<Entry<string, Candidate>>, all: seq<Origin>,
                                          at: seq<nat>, o: Origin) returns (k: nat)
    requires PairsComeFrom(inputs, items, pairs, all) && PlacesOfFirsts(pairs, at) && Considered(inputs, o)
    ensures k < |at| && at[k] < |all| && SameStored(inputs, all[at[k]], o)
  {
    var i :| 0 <= i < |all| && all[i] == o;
    k := KeyHasPlace(pairs, at, i);
    assert NewAt(pairs, at[k]);
    assert PairFrom(inputs, items, pairs[i], all[i], i + 1) && PairFrom(inputs, items, pairs[at[k]], all[at[k]], at[k] + 1);
  }

  lemma {:induction false} CandidateIsFrom(inputs: Inputs, items: seq<Item>, pair: Entry<string, Candidate>, o: Origin,
                                           was: nat, rank: nat)
    requires PairFrom(inputs, items, pair, o, was)
    ensures CandidateFrom(inputs, items, pair.value.(rank := rank), o, rank)
  {
  }

  lemma {:induction false} MapKeysAreFirsts(pairs: seq<Entry<string, Candidate>>, at: seq<nat>, k: nat)
    requires PlacesOfFirsts(pairs, at) && k < |at|
    ensures |MapOf(pairs)| == |at| && NewAt(pairs, at[k]) && MapOf(pairs)[k].key == pairs[at[k]].key
  {
    MapAndFirstsAgree(pairs);
    assert Keys(MapOf(pairs))[k] == Keys(Firsts(pairs))[k];
  }

  /** The candidates listed are these. */
  lemma {:induction false} CandidatesAreListed(inputs: Inputs, items: seq<Item>) returns (firsts: seq<Origin>, lasts: seq<Origin>)
    ensures Listed(inputs, items, UniqueCandidates(Raw(inputs.seeds, inputs.candidates, inputs.rows), items), firsts, lasts)
  {
    var raw := Raw(inputs.seeds, inputs.candidates, inputs.rows);
    var all := RawComesFrom(inputs);
    CandidatePairsComeFrom(inputs, items, raw, all);
    firsts, lasts := PairsAreListed(inputs, items, CandidatePairs(raw, SelectedKeys(items)), all, UniqueCandidates(raw, items));
  }

  /** The candidate at each key, from its first and last places. */
  lemma {:induction false} OneIsListed(inputs: Inputs, items: seq<Item>, pairs: seq<Entry<string, Candidate>>, all: seq<Origin>,
                                       at: seq<nat>, k: nat, n: nat)
    requires PairsComeFrom(inputs, items, pairs, all) && PlacesOfFirsts(pairs, at)
    requires k < |at| == |MapOf(pairs)| && LastAt(pairs, n) && pairs[n] == MapOf(pairs)[k]
    ensures at[k] < |all| && n < |all| && Spans(inputs, all[at[k]], all[n])
    ensures CandidateFrom(inputs, items, MapOf(pairs)[k].value.(rank := k + 1), all[n], k + 1)
  {
    MapKeysAreFirsts(pairs, at, k);
    PlacesSpan(inputs, items, pairs, all, at[k], n);
    CandidateIsFrom(inputs, items, pairs[n], all[n], n + 1, k + 1);
  }

  lemma {:induction false} PairsAreListed(inputs: Inputs, items: seq<Item>, pairs: seq<Entry<string, Candidate>>,
                                          all: seq<Origin>, cs: seq<Candidate>)
    returns (firsts: seq<Origin>, lasts: seq<Origin>)
    requires PairsComeFrom(inputs, items, pairs, all)
    requires |cs| == |MapOf(pairs)| && forall k | 0 <= k < |cs| :: cs[k] == MapOf(pairs)[k].value.(rank := k + 1)
    ensures Listed(inputs, items, cs, firsts, lasts)
  {
    var at := FirstPlaces(pairs);
    var to := LastPlaces(pairs, |MapOf(pairs)|);
    PlacesInRange(pairs, at);
    firsts := OriginsAt(all, at);
    lasts := OriginsAt(all, to);
    forall k | 0 <= k < |cs|
      ensures CandidateFrom(inputs, items, cs[k], lasts[k], k + 1) && Spans(inputs, firsts[k], lasts[k])
    {
      OneIsListed(inputs, items, pairs, all, at, k, to[k]);
    }
    forall o | Considered(inputs, o) ensures exists k :: 0 <= k < |cs| && SameStored(inputs, firsts[k], o) {
      var k := StoredHasPlace(inputs, items, pairs, all, at, o);
      assert SameStored(inputs, firsts[k], o);
    }
  }
}
