/** Compiling a topic report to page components (page-ir.ts): the citation list, the references
    into it, the counts by source, and the input of the dependency hash. */
module PageIr {
  import opened Outcomes
  import opened Ordering
  import opened OrderedMaps

  /** SHA-256 in hexadecimal. */
  type Digest = string -> string

  datatype RawCitation = RawCitation(topicCitationId: string, claimId: string, chunkId: string, excerptHash: string,
                                     excerpt: string, sourceId: string, sourceName: string, sourceKind: string)

  datatype Conclusion = Conclusion(statement: string, conclusionType: string, citations: seq<RawCitation>)

  datatype Section = Section(sectionKind: string, sectionId: string, summary: string, conclusions: seq<Conclusion>)

  datatype Claim = Claim(claimId: string, temporal: bool)

  datatype Gap = Gap(question: string, relatedClaimIds: seq<string>)

  datatype Report = Report(snapshotHash: string, sections: seq<Section>, claims: seq<Claim>,
                           nodeIds: seq<string>, edgeIds: seq<string>, gaps: seq<Gap>)

  datatype PageCitation = PageCitation(citationId: string, raw: RawCitation)

  datatype Card = Card(conclusionId: string, statement: string, citationIds: seq<string>)

  datatype SourceEntry = SourceEntry(sourceId: string, name: string, kind: string, citationCount: nat)

  datatype Payload = Cards(cards: seq<Card>) | Evidence(citations: seq<PageCitation>) | Sources(sources: seq<SourceEntry>) | Plain

  datatype Component = Component(key: string, payload: Payload, dependencyInput: string)

  datatype PageIrV1 = PageIrV1(components: seq<Component>, citations: seq<PageCitation>)

  // ---- citations ----

  function Take(s: string, n: nat): string {
    if n <= |s| then s[..n] else s
  }

  function PageCitationId(c: RawCitation, digest: Digest): string {
    "cite-" + Take(digest(c.claimId + "\n" + c.chunkId + "\n" + c.excerptHash), 20)
  }

  /** The text an id is made from. */
  function IdInput(c: RawCitation): string {
    c.claimId + "\n" + c.chunkId + "\n" + c.excerptHash
  }

  lemma {:induction false} LinesAreTold(a: string, b: string, x: string, y: string)
    requires '\n' !in a && '\n' !in b
    ensures a + "\n" + x == b + "\n" + y <==> a == b && x == y
  {
    if a != "" && b != "" {
      LinesAreTold(a[1..], b[1..], x, y);
      assert a == [a[0]] + a[1..] && b == [b[0]] + b[1..];
      LineStep(a, x);
      LineStep(b, y);
    } else {
      LineStep(a, x);
      LineStep(b, y);
    }
  }

  /** Its first unit, and what follows. */
  lemma LineStep(a: string, x: string)
    ensures (a + "\n" + x)[0] == if a == "" then '\n' else a[0]
    ensures (a + "\n" + x)[1..] == if a == "" then x else a[1..] + "\n" + x
  {
  }

  /** Two citations get one id exactly if they name the same claim, chunk and excerpt, whatever else they
      say, given that the digest tells their texts apart and no id holds a line break. */
  lemma {:induction false} OneIdIff(c: RawCitation, d: RawCitation, digest: Digest)
    requires '\n' !in c.claimId && '\n' !in d.claimId && '\n' !in c.chunkId && '\n' !in d.chunkId
    requires Take(digest(IdInput(c)), 20) == Take(digest(IdInput(d)), 20) ==> IdInput(c) == IdInput(d)
    ensures PageCitationId(c, digest) == PageCitationId(d, digest) <==>
            c.claimId == d.claimId && c.chunkId == d.chunkId && c.excerptHash == d.excerptHash
  {
    var x, y := c.chunkId + "\n" + c.excerptHash, d.chunkId + "\n" + d.excerptHash;
    LinesAreTold(c.claimId, d.claimId, x, y);
    LinesAreTold(c.chunkId, d.chunkId, c.excerptHash, d.excerptHash);
    assert IdInput(c) == c.claimId + "\n" + x && IdInput(d) == d.claimId + "\n" + y;
    assert PageCitationId(c, digest)[5..] == Take(digest(IdInput(c)), 20);
    assert PageCitationId(d, digest)[5..] == Take(digest(IdInput(d)), 20);
  }

  function CitationsIn(conclusions: seq<Conclusion>): seq<RawCitation> {
    if conclusions == [] then []
    else CitationsIn(conclusions[..|conclusions| - 1]) + conclusions[|conclusions| - 1].citations
  }

  function AllCitations(sections: seq<Section>): seq<RawCitation> {
    if sections == [] then []
    else AllCitations(sections[..|sections| - 1]) + CitationsIn(sections[|sections| - 1].conclusions)
  }

  function Pairs(raws: seq<RawCitation>, digest: Digest): (pairs: seq<Entry<string, PageCitation>>)
    ensures |pairs| == |raws|
    ensures forall i | 0 <= i < |raws| ::
      pairs[i] == Entry(PageCitationId(raws[i], digest), PageCitation(PageCitationId(raws[i], digest), raws[i]))
  {
    seq(|raws|, i requires 0 <= i < |raws| =>
      Entry(PageCitationId(raws[i], digest), PageCitation(PageCitationId(raws[i], digest), raws[i])))
  }

  function Values(m: seq<Entry<string, PageCitation>>): (vs: seq<PageCitation>)
    ensures |vs| == |m| && forall i | 0 <= i < |m| :: vs[i] == m[i].value
  {
    seq(|m|, i requires 0 <= i < |m| => m[i].value)
  }

  function InsertById(c: PageCitation, s: seq<PageCitation>): seq<PageCitation> {
    if s == [] || Less(c.citationId, s[0].citationId) then [c] + s else [s[0]] + InsertById(c, s[1..])
  }

  /** The stable sort by citation id; the ids are ASCII. */
  function SortById(s: seq<PageCitation>): seq<PageCitation> {
    if s == [] then [] else InsertById(s[|s| - 1], SortById(s[..|s| - 1]))
  }

  /** collectCitations, as one expression. */
  function Collected(sections: seq<Section>, digest: Digest): seq<PageCitation> {
    SortById(Values(MapOf(Pairs(AllCitations(sections), digest))))
  }

  lemma MapOfOneMore(pairs: seq<Entry<string, PageCitation>>, e: Entry<string, PageCitation>)
    ensures MapOf(pairs + [e]) == Put(MapOf(pairs), e)
  {
    assert (pairs + [e])[..|pairs|] == pairs;
  }

  lemma PairsOneMore(raws: seq<RawCitation>, c: RawCitation, digest: Digest)
    ensures Pairs(raws + [c], digest)
            == Pairs(raws, digest) + [Entry(PageCitationId(c, digest), PageCitation(PageCitationId(c, digest), c))]
  {
  }

  lemma AllOneMore(sections: seq<Section>, i: nat)
    requires i < |sections|
    ensures AllCitations(sections[..i + 1]) == AllCitations(sections[..i]) + CitationsIn(sections[i].conclusions)
  {
    assert sections[..i + 1][..i] == sections[..i];
  }

  lemma InOneMore(conclusions: seq<Conclusion>, j: nat)
    requires j < |conclusions|
    ensures CitationsIn(conclusions[..j + 1]) == CitationsIn(conclusions[..j]) + conclusions[j].citations
  {
    assert conclusions[..j + 1][..j] == conclusions[..j];
  }

  /** The Map filled from the citations so far. */
  predicate Filled(byId: seq<Entry<string, PageCitation>>, seen: seq<RawCitation>, digest: Digest) {
    byId == MapOf(Pairs(seen, digest))
  }

  lemma FilledOneMore(byId: seq<Entry<string, PageCitation>>, seen: seq<RawCitation>, c: RawCitation, digest: Digest)
    requires Filled(byId, seen, digest)
    ensures var id := PageCitationId(c, digest);
      Filled(Put(byId, Entry(id, PageCitation(id, c))), seen + [c], digest)
  {
    PairsOneMore(seen, c, digest);
    MapOfOneMore(Pairs(seen, digest), Entry(PageCitationId(c, digest), PageCitation(PageCitationId(c, digest), c)));
  }

  /** The three nested loops of collectCitations, from the innermost. */
  method AddCited(byId: seq<Entry<string, PageCitation>>, cited: seq<RawCitation>, digest: Digest, ghost seen: seq<RawCitation>)
    returns (added: seq<Entry<string, PageCitation>>)
    requires Filled(byId, seen, digest)
    ensures Filled(added, seen + cited, digest)
  {
    added := byId;
    var k := 0;
    assert seen + cited[..0] == seen;
    while k < |cited|
      invariant 0 <= k <= |cited|
      invariant Filled(added, seen + cited[..k], digest)
    {
      var id := PageCitationId(cited[k], digest);
      FilledOneMore(added, seen + cited[..k], cited[k], digest);
      assert seen + cited[..k + 1] == seen + cited[..k] + [cited[k]];
      added := Put(added, Entry(id, PageCitation(id, cited[k])));
      k := k + 1;
    }
    assert cited[..k] == cited;
  }

  method AddConcluded(byId: seq<Entry<string, PageCitation>>, conclusions: seq<Conclusion>, digest: Digest,
                      ghost seen: seq<RawCitation>)
    returns (added: seq<Entry<string, PageCitation>>)
    requires Filled(byId, seen, digest)
    ensures Filled(added, seen + CitationsIn(conclusions), digest)
  {
    added := byId;
    var j := 0;
    assert seen + CitationsIn(conclusions[..0]) == seen;
    while j < |conclusions|
      invariant 0 <= j <= |conclusions|
      invariant Filled(added, seen + CitationsIn(conclusions[..j]), digest)
    {
      InOneMore(conclusions, j);
      ghost var here := CitationsIn(conclusions[..j]);
      assert seen + (here + conclusions[j].citations) == (seen + here) + conclusions[j].citations;
      added := AddCited(added, conclusions[j].citations, digest, seen + here);
      j := j + 1;
    }
    assert conclusions[..j] == conclusions;
  }

  method CollectCitations(sections: seq<Section>, digest: Digest) returns (citations: seq<PageCitation>)
    ensures citations == Collected(sections, digest)
  {
    var byId: seq<Entry<string, PageCitation>> := [];
    var i := 0;
    while i < |sections|
      invariant 0 <= i <= |sections|
      invariant Filled(byId, AllCitations(sections[..i]), digest)
    {
      AllOneMore(sections, i);
      byId := AddConcluded(byId, sections[i].conclusions, digest, AllCitations(sections[..i]));
      i := i + 1;
    }
    assert sections[..i] == sections;
    citations := SortById(Values(byId));
  }

  // ---- what the list holds ----

  function Ids(cs: seq<PageCitation>): (ids: seq<string>)
    ensures |ids| == |cs| && forall i | 0 <= i < |cs| :: ids[i] == cs[i].citationId
  {
    seq(|cs|, i requires 0 <= i < |cs| => cs[i].citationId)
  }

  lemma {:induction false} InsertedMembers(c: PageCitation, s: seq<PageCitation>)
    ensures multiset(InsertById(c, s)) == multiset(s) + multiset{c}
  {
    if s != [] && !Less(c.citationId, s[0].citationId) {
      InsertedMembers(c, s[1..]);
      assert s == [s[0]] + s[1..];
    }
  }

  lemma {:induction false} SortedMembers(s: seq<PageCitation>)
    ensures multiset(SortById(s)) == multiset(s)
  {
    if s != [] {
      var init, last := s[..|s| - 1], s[|s| - 1];
      SortedMembers(init);
      InsertedMembers(last, SortById(init));
      assert s == init + [last];
    }
  }

  lemma ConsIsSorted(x: string, ids: seq<string>)
    requires StrictlySorted(ids) && forall k | 0 <= k < |ids| :: Less(x, ids[k])
    ensures StrictlySorted([x] + ids)
  {
  }

  lemma {:induction false} InsertedIds(c: PageCitation, s: seq<PageCitation>, id: string)
    ensures id in Ids(InsertById(c, s)) <==> id == c.citationId || id in Ids(s)
  {
    if s != [] && !Less(c.citationId, s[0].citationId) {
      InsertedIds(c, s[1..], id);
      assert Ids(s) == [s[0].citationId] + Ids(s[1..]);
      assert Ids([s[0]] + InsertById(c, s[1..])) == [s[0].citationId] + Ids(InsertById(c, s[1..]));
    } else {
      assert Ids([c] + s) == [c.citationId] + Ids(s);
    }
  }

  lemma InsertedFirst(c: PageCitation, s: seq<PageCitation>)
    requires StrictlySorted(Ids(s)) && s != [] && Less(c.citationId, s[0].citationId)
    ensures StrictlySorted(Ids([c] + s))
  {
    forall k | 0 <= k < |s| ensures Less(c.citationId, Ids(s)[k]) {
      if k > 0 {
        LessTransitive(c.citationId, Ids(s)[0], Ids(s)[k]);
      }
    }
    ConsIsSorted(c.citationId, Ids(s));
    assert Ids([c] + s) == [c.citationId] + Ids(s);
  }

  lemma InsertedLater(c: PageCitation, s: seq<PageCitation>)
    requires StrictlySorted(Ids(s)) && s != [] && Less(s[0].citationId, c.citationId)
    requires StrictlySorted(Ids(InsertById(c, s[1..])))
    ensures StrictlySorted(Ids([s[0]] + InsertById(c, s[1..])))
  {
    var head, longer := s[0].citationId, InsertById(c, s[1..]);
    assert Ids(s[1..]) == Ids(s)[1..];
    forall k | 0 <= k < |longer| ensures Less(head, Ids(longer)[k]) {
      InsertedIds(c, s[1..], Ids(longer)[k]);
      if Ids(longer)[k] in Ids(s[1..]) {
        var m :| 0 <= m < |s| - 1 && Ids(s[1..])[m] == Ids(longer)[k];
        assert Less(Ids(s)[0], Ids(s)[m + 1]);
      }
    }
    ConsIsSorted(head, Ids(longer));
    assert Ids([s[0]] + longer) == [head] + Ids(longer);
  }

  lemma {:induction false} InsertedIsSorted(c: PageCitation, s: seq<PageCitation>)
    requires StrictlySorted(Ids(s)) && c.citationId !in Ids(s)
    ensures StrictlySorted(Ids(InsertById(c, s)))
  {
    if s == [] {
      assert Ids([c] + s) == [c.citationId];
    } else if Less(c.citationId, s[0].citationId) {
      InsertedFirst(c, s);
    } else {
      assert Ids(s)[0] == s[0].citationId && Ids(s[1..]) == Ids(s)[1..];
      LessTotal(c.citationId, s[0].citationId);
      InsertedIsSorted(c, s[1..]);
      InsertedLater(c, s);
    }
  }

  lemma {:induction false} SortIsSorted(s: seq<PageCitation>)
    requires NoRepeats(Ids(s))
    ensures StrictlySorted(Ids(SortById(s)))
  {
    if s != [] {
      var init, last := s[..|s| - 1], s[|s| - 1];
      assert Ids(init) == Ids(s)[..|s| - 1];
      SortIsSorted(init);
      SortedMembers(init);
      forall k | 0 <= k < |SortById(init)| ensures SortById(init)[k].citationId != last.citationId {
        assert SortById(init)[k] in multiset(SortById(init));
        assert SortById(init)[k] in init;
        var m :| 0 <= m < |init| && init[m] == SortById(init)[k];
        assert Ids(s)[m] != Ids(s)[|s| - 1];
      }
      InsertedIsSorted(last, SortById(init));
    }
  }

  lemma MapValuesKeepKeys(pairs: seq<Entry<string, PageCitation>>)
    requires forall i | 0 <= i < |pairs| :: pairs[i].key == pairs[i].value.citationId
    ensures Ids(Values(MapOf(pairs))) == Keys(MapOf(pairs))
    ensures NoRepeats(Keys(MapOf(pairs)))
  {
    var m := MapOf(pairs);
    forall k | 0 <= k < |m| ensures m[k].value.citationId == m[k].key {
      var i := MapHoldsTheLast(pairs, k);
    }
    MapAndFirstsAgree(pairs);
    FirstsHaveNoRepeats(pairs);
  }

  lemma SameMembers(s: seq<PageCitation>, id: string)
    ensures id in Ids(SortById(s)) <==> id in Ids(s)
  {
    SortedMembers(s);
    if id in Ids(s) {
      var m :| 0 <= m < |s| && Ids(s)[m] == id;
      assert s[m] in multiset(SortById(s));
      var k :| 0 <= k < |SortById(s)| && SortById(s)[k] == s[m];
      assert Ids(SortById(s))[k] == id;
    }
    if id in Ids(SortById(s)) {
      var k :| 0 <= k < |SortById(s)| && Ids(SortById(s))[k] == id;
      assert SortById(s)[k] in multiset(s);
      var m :| 0 <= m < |s| && s[m] == SortById(s)[k];
      assert Ids(s)[m] == id;
    }
  }

  lemma KeysAreCited(raws: seq<RawCitation>, digest: Digest, id: string)
    ensures id in Keys(MapOf(Pairs(raws, digest))) <==> exists c :: c in raws && PageCitationId(c, digest) == id
  {
    var pairs := Pairs(raws, digest);
    if id in Keys(MapOf(pairs)) {
      var m :| 0 <= m < |MapOf(pairs)| && Keys(MapOf(pairs))[m] == id;
      var i := MapHoldsTheLast(pairs, m);
      assert raws[i] in raws;
    }
    if c :| c in raws && PageCitationId(c, digest) == id {
      var i :| 0 <= i < |raws| && raws[i] == c;
      MapAndFirstsAgree(pairs);
      FirstsHaveEveryKey(pairs, i);
    }
  }

  /** The list is sorted by id, each id once, and has an id exactly when a conclusion cites it. */
  lemma CollectedIsIndex(sections: seq<Section>, digest: Digest, id: string)
    ensures StrictlySorted(Ids(Collected(sections, digest)))
    ensures id in Ids(Collected(sections, digest)) <==>
            exists c :: c in AllCitations(sections) && PageCitationId(c, digest) == id
  {
    var pairs := Pairs(AllCitations(sections), digest);
    MapValuesKeepKeys(pairs);
    SortIsSorted(Values(MapOf(pairs)));
    SameMembers(Values(MapOf(pairs)), id);
    KeysAreCited(AllCitations(sections), digest, id);
  }

  lemma {:induction false} CitedIsCollected(sections: seq<Section>, i: nat, c: RawCitation)
    requires i < |sections| && c in CitationsIn(sections[i].conclusions)
    ensures c in AllCitations(sections)
    decreases |sections|
  {
    if i < |sections| - 1 {
      CitedIsCollected(sections[..|sections| - 1], i, c);
    }
  }

  lemma {:induction false} CitedInConclusion(conclusions: seq<Conclusion>, j: nat, c: RawCitation)
    requires j < |conclusions| && c in conclusions[j].citations
    ensures c in CitationsIn(conclusions)
    decreases |conclusions|
  {
    if j < |conclusions| - 1 {
      CitedInConclusion(conclusions[..|conclusions| - 1], j, c);
    }
  }

  predicate OccursOnce(id: string, cs: seq<PageCitation>) {
    exists i | 0 <= i < |cs| :: cs[i].citationId == id && forall j | 0 <= j < |cs| :: cs[j].citationId == id ==> j == i
  }

  lemma CitationResolves(sections: seq<Section>, digest: Digest, i: nat, j: nat, k: nat)
    requires i < |sections| && j < |sections[i].conclusions| && k < |sections[i].conclusions[j].citations|
    ensures OccursOnce(PageCitationId(sections[i].conclusions[j].citations[k], digest), Collected(sections, digest))
  {
    var c := sections[i].conclusions[j].citations[k];
    var id := PageCitationId(c, digest);
    CitedInConclusion(sections[i].conclusions, j, c);
    CitedIsCollected(sections, i, c);
    CollectedIsIndex(sections, digest, id);
    var cs := Collected(sections, digest);
    var m :| 0 <= m < |cs| && Ids(cs)[m] == id;
    forall n | 0 <= n < |cs| && cs[n].citationId == id ensures n == m {
      if n < m {
        StrictlySortedIsDistinct(Ids(cs), n, m);
      } else if m < n {
        StrictlySortedIsDistinct(Ids(cs), m, n);
      }
    }
  }

  /** Of several citations with one id the list holds the last. */
  lemma CollectedIsTheLast(sections: seq<Section>, digest: Digest, k: nat) returns (i: nat)
    requires k < |Collected(sections, digest)|
    ensures var raws := AllCitations(sections);
      && i < |raws|
      && Collected(sections, digest)[k] == PageCitation(PageCitationId(raws[i], digest), raws[i])
      && forall j | i < j < |raws| :: PageCitationId(raws[j], digest) != PageCitationId(raws[i], digest)
  {
    var raws := AllCitations(sections);
    var pairs := Pairs(raws, digest);
    var values := Values(MapOf(pairs));
    SortedMembers(values);
    assert Collected(sections, digest)[k] in multiset(values);
    var m :| 0 <= m < |values| && values[m] == Collected(sections, digest)[k];
    i := MapHoldsTheLast(pairs, m);
    forall j | i < j < |raws| ensures PageCitationId(raws[j], digest) != PageCitationId(raws[i], digest) {
      assert pairs[j].key != pairs[i].key;
    }
  }

  // ---- counts by source ----

  function CountOf(citations: seq<PageCitation>, sourceId: string): nat {
    if citations == [] then 0
    else CountOf(citations[..|citations| - 1], sourceId)
         + if citations[|citations| - 1].raw.sourceId == sourceId then 1 else 0
  }

  function BySource(citations: seq<PageCitation>): (pairs: seq<Entry<string, PageCitation>>)
    ensures |pairs| == |citations|
    ensures forall i | 0 <= i < |citations| :: pairs[i] == Entry(citations[i].raw.sourceId, citations[i])
  {
    seq(|citations|, i requires 0 <= i < |citations| => Entry(citations[i].raw.sourceId, citations[i]))
  }

  function SourceOf(c: PageCitation, citations: seq<PageCitation>): SourceEntry {
    SourceEntry(c.raw.sourceId, c.raw.sourceName, c.raw.sourceKind, CountOf(citations, c.raw.sourceId))
  }

  function SourcesOf(unique: seq<Entry<string, PageCitation>>, citations: seq<PageCitation>): (sources: seq<SourceEntry>)
    ensures |sources| == |unique|
    ensures forall i | 0 <= i < |unique| :: sources[i] == SourceOf(unique[i].value, citations)
  {
    seq(|unique|, i requires 0 <= i < |unique| => SourceOf(unique[i].value, citations))
  }

  function Directory(citations: seq<PageCitation>): seq<SourceEntry> {
    SourcesOf(MapOf(BySource(citations)), citations)
  }

  method CollectSources(citations: seq<PageCitation>) returns (sources: seq<SourceEntry>)
    ensures sources == Directory(citations)
  {
    var unique: seq<Entry<string, PageCitation>> := [];
    var i := 0;
    while i < |citations|
      invariant 0 <= i <= |citations|
      invariant unique == MapOf(BySource(citations[..i]))
    {
      MapOfOneMore(BySource(citations[..i]), Entry(citations[i].raw.sourceId, citations[i]));
      assert BySource(citations[..i + 1])
        == BySource(citations[..i]) + [Entry(citations[i].raw.sourceId, citations[i])];
      unique := Put(unique, Entry(citations[i].raw.sourceId, citations[i]));
      i := i + 1;
    }
    assert citations[..i] == citations;
    sources := SourcesOf(unique, citations);
  }

  function SumOfCounts(ids: seq<string>, citations: seq<PageCitation>): nat {
    if ids == [] then 0 else SumOfCounts(ids[..|ids| - 1], citations) + CountOf(citations, ids[|ids| - 1])
  }

  lemma {:induction false} SumWithoutCitations(ids: seq<string>)
    ensures SumOfCounts(ids, []) == 0
  {
    if ids != [] {
      SumWithoutCitations(ids[..|ids| - 1]);
    }
  }

  /** One more citation adds one to the sum if its source is among the ids. */
  lemma {:induction false} SumOneMore(ids: seq<string>, citations: seq<PageCitation>, c: PageCitation)
    requires NoRepeats(ids)
    ensures SumOfCounts(ids, citations + [c])
            == SumOfCounts(ids, citations) + if c.raw.sourceId in ids then 1 else 0
    decreases |ids|
  {
    if ids != [] {
      var front, last := ids[..|ids| - 1], ids[|ids| - 1];
      assert ids == front + [last];
      SumOneMore(front, citations, c);
      assert (citations + [c])[..|citations|] == citations;
    }
  }

  /** Each citation counts for exactly one source. */
  lemma {:induction false} CountsAddUp(ids: seq<string>, citations: seq<PageCitation>)
    requires NoRepeats(ids) && forall i | 0 <= i < |citations| :: citations[i].raw.sourceId in ids
    ensures SumOfCounts(ids, citations) == |citations|
    decreases |citations|
  {
    if citations == [] {
      SumWithoutCitations(ids);
    } else {
      var init, last := citations[..|citations| - 1], citations[|citations| - 1];
      assert citations == init + [last];
      CountsAddUp(ids, init);
      SumOneMore(ids, init, last);
    }
  }

  function Total(sources: seq<SourceEntry>): nat {
    if sources == [] then 0 else Total(sources[..|sources| - 1]) + sources[|sources| - 1].citationCount
  }

  function SourceIds(sources: seq<SourceEntry>): (ids: seq<string>)
    ensures |ids| == |sources| && forall i | 0 <= i < |sources| :: ids[i] == sources[i].sourceId
  {
    seq(|sources|, i requires 0 <= i < |sources| => sources[i].sourceId)
  }

  lemma {:induction false} TotalIsSum(sources: seq<SourceEntry>, citations: seq<PageCitation>)
    requires forall i | 0 <= i < |sources| :: sources[i].citationCount == CountOf(citations, sources[i].sourceId)
    ensures Total(sources) == SumOfCounts(SourceIds(sources), citations)
    decreases |sources|
  {
    if sources != [] {
      var front := sources[..|sources| - 1];
      assert SourceIds(sources)[..|sources| - 1] == SourceIds(front);
      TotalIsSum(front, citations);
    }
  }

  /** The directory lists every source of a citation once, and its counts add up to the number of
      citations. */
  lemma DirectoryAddsUp(citations: seq<PageCitation>)
    ensures NoRepeats(SourceIds(Directory(citations)))
    ensures forall i | 0 <= i < |citations| :: citations[i].raw.sourceId in SourceIds(Directory(citations))
    ensures Total(Directory(citations)) == |citations|
  {
    var pairs := BySource(citations);
    var unique, sources := MapOf(pairs), Directory(citations);
    forall k | 0 <= k < |unique| ensures sources[k].sourceId == Keys(unique)[k] {
      var i := MapHoldsTheLast(pairs, k);
    }
    assert SourceIds(sources) == Keys(unique);
    MapAndFirstsAgree(pairs);
    FirstsHaveNoRepeats(pairs);
    forall i | 0 <= i < |citations| ensures citations[i].raw.sourceId in SourceIds(sources) {
      FirstsHaveEveryKey(pairs, i);
    }
    CountsAddUp(SourceIds(sources), citations);
    TotalIsSum(sources, citations);
  }

  // ---- dependencies ----

  function InsertSorted(x: string, s: seq<string>): seq<string> {
    if s == [] || !Less(s[0], x) then [x] + s else [s[0]] + InsertSorted(x, s[1..])
  }

  /** `[...s].sort()`. */
  function Sorted(s: seq<string>): seq<string> {
    if s == [] then [] else InsertSorted(s[0], Sorted(s[1..]))
  }

  function JoinLines(s: seq<string>): string {
    if s == [] then ""
    else if |s| == 1 then s[0]
    else s[0] + "\n" + JoinLines(s[1..])
  }

  /** What the dependency hash is taken of. */
  function DependencyInput(dependencies: seq<string>): string {
    JoinLines(Sorted(dependencies))
  }

  predicate InOrder(s: seq<string>) {
    forall i, j | 0 <= i < j < |s| :: !Less(s[j], s[i])
  }

  lemma NotLessTransitive(a: string, b: string, c: string)
    requires !Less(b, a) && !Less(c, b)
    ensures !Less(c, a)
  {
    LessTotal(a, b);
    LessTotal(b, c);
    if a != b && b != c {
      LessTransitive(a, b, c);
    }
    LessIrreflexive(a);
    if Less(a, c) {
      LessAsymmetric(a, c);
    }
  }

  lemma LessAsymmetric(a: string, b: string)
    requires Less(a, b)
    ensures !Less(b, a)
  {
    if Less(b, a) {
      LessTransitive(a, b, a);
      LessIrreflexive(a);
    }
  }

  lemma {:induction false} InsertKeepsAll(x: string, s: seq<string>)
    ensures multiset(InsertSorted(x, s)) == multiset{x} + multiset(s)
  {
    if s != [] && Less(s[0], x) {
      InsertKeepsAll(x, s[1..]);
      assert s == [s[0]] + s[1..];
    }
  }

  lemma {:induction false} SortKeepsAll(s: seq<string>)
    ensures multiset(Sorted(s)) == multiset(s)
  {
    if s != [] {
      SortKeepsAll(s[1..]);
      InsertKeepsAll(s[0], Sorted(s[1..]));
      assert s == [s[0]] + s[1..];
    }
  }

  lemma {:induction false} InsertKeepsOrder(x: string, s: seq<string>)
    requires InOrder(s)
    ensures InOrder(InsertSorted(x, s))
  {
    if s == [] {
    } else if !Less(s[0], x) {
      forall j | 0 <= j < |s| ensures !Less(s[j], x) {
        if j > 0 {
          NotLessTransitive(x, s[0], s[j]);
        }
      }
    } else {
      InsertKeepsOrder(x, s[1..]);
      InsertKeepsAll(x, s[1..]);
      LessAsymmetric(s[0], x);
      var longer := InsertSorted(x, s[1..]);
      forall j | 0 <= j < |longer| ensures !Less(longer[j], s[0]) {
        assert longer[j] in multiset(longer);
        if longer[j] != x {
          var m :| 0 <= m < |s| - 1 && s[1..][m] == longer[j];
          assert s[m + 1] == longer[j];
        }
      }
    }
  }

  lemma {:induction false} SortOrders(s: seq<string>)
    ensures InOrder(Sorted(s))
  {
    if s != [] {
      SortOrders(s[1..]);
      InsertKeepsOrder(s[0], Sorted(s[1..]));
    }
  }

  lemma TailMultiset(s: seq<string>)
    requires s != []
    ensures s == [s[0]] + s[1..] && s[0] in multiset(s) && multiset(s[1..]) == multiset(s) - multiset{s[0]}
  {
    assert s == [s[0]] + s[1..];
  }

  lemma SameHead(a: seq<string>, b: seq<string>)
    requires InOrder(a) && InOrder(b) && multiset(a) == multiset(b) && a != [] && b != []
    ensures a[0] == b[0]
  {
    assert a[0] in multiset(b) && b[0] in multiset(a);
    LeastIsFirst(a, b[0]);
    LeastIsFirst(b, a[0]);
    LessTotal(a[0], b[0]);
  }

  /** An ordered list is determined by its elements, counted. */
  lemma {:induction false} OrderIsCanonical(a: seq<string>, b: seq<string>)
    requires InOrder(a) && InOrder(b) && multiset(a) == multiset(b)
    ensures a == b
    decreases |a|
  {
    assert |multiset(a)| == |a| && |multiset(b)| == |b|;
    if a != [] {
      SameHead(a, b);
      TailMultiset(a);
      TailMultiset(b);
      OrderIsCanonical(a[1..], b[1..]);
    }
  }

  lemma LeastIsFirst(s: seq<string>, x: string)
    requires InOrder(s) && x in s
    ensures !Less(x, s[0])
  {
    LessIrreflexive(x);
  }

  predicate OneLine(s: string) {
    '\n' !in s
  }

  /** Where the first of the joined lines ends. */
  lemma {:induction false} FirstLine(a: string, rest: string, b: string, more: string)
    requires OneLine(a) && OneLine(b) && a + "\n" + rest == b + "\n" + more
    ensures a == b && rest == more
  {
    var whole := a + "\n" + rest;
    assert whole[|a|] == '\n' && whole[|b|] == '\n';
    assert a == whole[..|a|] && b == whole[..|b|];
    assert rest == whole[|a| + 1..] && more == whole[|b| + 1..];
  }

  lemma {:induction false} JoinIsInjective(a: seq<string>, b: seq<string>)
    requires a != [] && b != [] && JoinLines(a) == JoinLines(b)
    requires (forall i | 0 <= i < |a| :: OneLine(a[i])) && (forall i | 0 <= i < |b| :: OneLine(b[i]))
    ensures a == b
    decreases |a|
  {
    if |a| == 1 && |b| == 1 {
      assert a == [a[0]] && b == [b[0]];
    } else if |a| > 1 && |b| > 1 {
      FirstLine(a[0], JoinLines(a[1..]), b[0], JoinLines(b[1..]));
      JoinIsInjective(a[1..], b[1..]);
      assert a == [a[0]] + a[1..] && b == [b[0]] + b[1..];
    } else {
      HasTwoLines(a);
      HasTwoLines(b);
    }
  }

  lemma HasTwoLines(s: seq<string>)
    requires s != []
    ensures |s| > 1 ==> !OneLine(JoinLines(s))
    ensures |s| == 1 ==> JoinLines(s) == s[0]
  {
    if |s| > 1 {
      assert JoinLines(s)[|s[0]|] == '\n';
    }
  }

  /** The hash input is the same for two lists of dependencies exactly when one is a permutation of
      the other; dependencies are ids and hashes, and have no line breaks. */
  lemma DependencyInputIff(a: seq<string>, b: seq<string>)
    requires (forall i | 0 <= i < |a| :: OneLine(a[i])) && (forall i | 0 <= i < |b| :: OneLine(b[i]))
    requires a != [] && b != []
    ensures DependencyInput(a) == DependencyInput(b) <==> multiset(a) == multiset(b)
  {
    SortKeepsAll(a);
    SortKeepsAll(b);
    if multiset(a) == multiset(b) {
      PermutationKeepsInput(a, b);
    }
    if DependencyInput(a) == DependencyInput(b) {
      SortedOneLine(a);
      SortedOneLine(b);
      JoinIsInjective(Sorted(a), Sorted(b));
    }
  }

  lemma SortedOneLine(s: seq<string>)
    requires s != [] && forall i | 0 <= i < |s| :: OneLine(s[i])
    ensures Sorted(s) != [] && forall i | 0 <= i < |Sorted(s)| :: OneLine(Sorted(s)[i])
  {
    SortKeepsAll(s);
    assert |multiset(Sorted(s))| == |Sorted(s)| && |multiset(s)| == |s|;
    forall i | 0 <= i < |Sorted(s)| ensures OneLine(Sorted(s)[i]) {
      assert Sorted(s)[i] in multiset(s);
    }
  }

  /** Any permutation of the dependencies gives the same input. */
  lemma PermutationKeepsInput(a: seq<string>, b: seq<string>)
    requires multiset(a) == multiset(b)
    ensures DependencyInput(a) == DependencyInput(b)
  {
    SortKeepsAll(a);
    SortKeepsAll(b);
    SortOrders(a);
    SortOrders(b);
    OrderIsCanonical(Sorted(a), Sorted(b));
  }

  // ---- the page ----

  function IdsOf(raws: seq<RawCitation>, digest: Digest): (ids: seq<string>)
    ensures |ids| == |raws| && forall i | 0 <= i < |raws| :: ids[i] == PageCitationId(raws[i], digest)
  {
    seq(|raws|, i requires 0 <= i < |raws| => PageCitationId(raws[i], digest))
  }

  /** A conclusion card is identified by its type and statement, a position by its statement. */
  function CardFor(c: Conclusion, isConflict: bool, digest: Digest): Card {
    var id := if isConflict then "position-" + Take(digest(c.statement), 20)
              else "conclusion-" + Take(digest(c.conclusionType + "\n" + c.statement), 20);
    Card(id, c.statement, IdsOf(c.citations, digest))
  }

  function CardsFor(conclusions: seq<Conclusion>, isConflict: bool, digest: Digest): (cards: seq<Card>)
    ensures |cards| == |conclusions|
    ensures forall i | 0 <= i < |cards| :: cards[i] == CardFor(conclusions[i], isConflict, digest)
  {
    seq(|conclusions|, i requires 0 <= i < |conclusions| => CardFor(conclusions[i], isConflict, digest))
  }

  function CardDependencies(cards: seq<Card>): seq<string> {
    if cards == [] then []
    else CardDependencies(cards[..|cards| - 1]) + [cards[|cards| - 1].conclusionId] + cards[|cards| - 1].citationIds
  }

  function CardComponent(key: string, section: Section, isConflict: bool, digest: Digest): Component {
    var cards := CardsFor(section.conclusions, isConflict, digest);
    Component(key, Cards(cards), DependencyInput(CardDependencies(cards)))
  }

  function EvidenceDependencies(citations: seq<PageCitation>): seq<string> {
    if citations == [] then []
    else
      var last := citations[|citations| - 1];
      EvidenceDependencies(citations[..|citations| - 1]) + [last.citationId, last.raw.excerptHash]
  }

  predicate OfKind(section: Section, kind: string) {
    section.sectionKind == kind
  }

  predicate Rendered(section: Section) {
    section.sectionKind !in ["overview", "unknown", "conflict"]
  }

  function ClaimIds(claims: seq<Claim>): seq<string> {
    seq(|claims|, i requires 0 <= i < |claims| => claims[i].claimId)
  }

  function Temporal(claims: seq<Claim>): seq<Claim> {
    if claims == [] then []
    else Temporal(claims[..|claims| - 1]) + if claims[|claims| - 1].temporal then [claims[|claims| - 1]] else []
  }

  function GapDependencies(gaps: seq<Gap>, digest: Digest): seq<string> {
    if gaps == [] then []
    else
      GapDependencies(gaps[..|gaps| - 1], digest)
      + ["gap-" + Take(digest(gaps[|gaps| - 1].question), 20)] + gaps[|gaps| - 1].relatedClaimIds
  }

  /** Every citation id a component refers to is in the list, once. */
  predicate Closed(component: Component, citations: seq<PageCitation>) {
    component.payload.Cards? ==>
      forall i, k | 0 <= i < |component.payload.cards| && 0 <= k < |component.payload.cards[i].citationIds| ::
        OccursOnce(component.payload.cards[i].citationIds[k], citations)
  }

  lemma CardsAreClosed(sections: seq<Section>, digest: Digest, s: nat, key: string, isConflict: bool)
    requires s < |sections|
    ensures Closed(CardComponent(key, sections[s], isConflict, digest), Collected(sections, digest))
  {
    var component := CardComponent(key, sections[s], isConflict, digest);
    forall i, k | 0 <= i < |component.payload.cards| && 0 <= k < |component.payload.cards[i].citationIds|
      ensures OccursOnce(component.payload.cards[i].citationIds[k], Collected(sections, digest))
    {
      CitationResolves(sections, digest, s, i, k);
    }
  }

  /** The components of the rendered sections, in order. */
  function SectionComponents(sections: seq<Section>, digest: Digest): seq<Component> {
    if sections == [] then []
    else
      var last := sections[|sections| - 1];
      SectionComponents(sections[..|sections| - 1], digest)
      + if Rendered(last) then [CardComponent("section-" + last.sectionKind, last, false, digest)] else []
  }

  function FirstConflict(sections: seq<Section>, i: nat): (found: Option<nat>)
    ensures found.None? ==> forall j | i <= j < |sections| :: !OfKind(sections[j], "conflict")
    ensures found.Some? ==> i <= found.value < |sections| && OfKind(sections[found.value], "conflict")
    ensures found.Some? ==> forall j | i <= j < found.value :: !OfKind(sections[j], "conflict")
    decreases |sections| - i
  {
    if i >= |sections| then None
    else if OfKind(sections[i], "conflict") then Some(i)
    else FirstConflict(sections, i + 1)
  }

  predicate AllClosed(components: seq<Component>, citations: seq<PageCitation>) {
    forall i | 0 <= i < |components| :: Closed(components[i], citations)
  }

  lemma ClosedTogether(a: seq<Component>, b: seq<Component>, citations: seq<PageCitation>)
    requires AllClosed(a, citations) && AllClosed(b, citations)
    ensures AllClosed(a + b, citations)
  {
  }

  method RenderSections(sections: seq<Section>, digest: Digest) returns (components: seq<Component>)
    ensures components == SectionComponents(sections, digest)
  {
    components := [];
    var s := 0;
    while s < |sections|
      invariant 0 <= s <= |sections|
      invariant components == SectionComponents(sections[..s], digest)
    {
      assert sections[..s + 1][..s] == sections[..s];
      if Rendered(sections[s]) {
        components := components + [CardComponent("section-" + sections[s].sectionKind, sections[s], false, digest)];
      }
      s := s + 1;
    }
    assert sections[..s] == sections;
  }

  lemma {:induction false} SectionsAreClosed(all: seq<Section>, n: nat, digest: Digest)
    requires n <= |all|
    ensures AllClosed(SectionComponents(all[..n], digest), Collected(all, digest))
  {
    if n > 0 {
      SectionsAreClosed(all, n - 1, digest);
      assert all[..n][..n - 1] == all[..n - 1];
      CardsAreClosed(all, digest, n - 1, "section-" + all[n - 1].sectionKind, false);
    }
  }

  // The parts of a page, some of which may be missing.

  function Opening(report: Report): seq<Component> {
    [Component("hero", Plain, DependencyInput([report.snapshotHash]))]
  }

  function EvidencePart(citations: seq<PageCitation>): seq<Component> {
    [Component("evidence-ledger", Evidence(citations), DependencyInput(EvidenceDependencies(citations)))]
  }

  function ClaimParts(report: Report): seq<Component> {
    var temporal := Temporal(report.claims);
    (if temporal != [] then [Component("timeline", Plain, DependencyInput(ClaimIds(temporal)))] else [])
    + (if |report.claims| > 1 then [Component("comparison", Plain, DependencyInput(ClaimIds(report.claims)))] else [])
    + if report.nodeIds != [] then
        [Component("knowledge-graph", Plain, DependencyInput(report.nodeIds + report.edgeIds))]
      else []
  }

  function ConflictPart(sections: seq<Section>, digest: Digest): seq<Component> {
    match FirstConflict(sections, 0)
    case None => []
    case Some(i) => [CardComponent("conflicts", sections[i], true, digest)]
  }

  function GapPart(report: Report, digest: Digest): seq<Component> {
    if report.gaps == [] then []
    else [Component("knowledge-gaps", Plain, DependencyInput(GapDependencies(report.gaps, digest)))]
  }

  function DirectoryPart(sources: seq<SourceEntry>): seq<Component> {
    [Component("source-directory", Sources(sources), DependencyInput(SourceIds(sources)))]
  }

  function Page(report: Report, digest: Digest): PageIrV1 {
    var citations := Collected(report.sections, digest);
    PageIrV1(Opening(report) + SectionComponents(report.sections, digest) + EvidencePart(citations) + ClaimParts(report)
             + ConflictPart(report.sections, digest) + GapPart(report, digest) + DirectoryPart(Directory(citations)),
             citations)
  }

  /** createTopicPageIr. */
  method CreateTopicPageIr(report: Report, digest: Digest) returns (page: PageIrV1)
    ensures page == Page(report, digest)
  {
    var citations := CollectCitations(report.sections, digest);
    var components := Opening(report);
    var rendered := RenderSections(report.sections, digest);
    components := components + rendered;
    components := components + EvidencePart(citations);
    components := components + ClaimParts(report);
    components := components + ConflictPart(report.sections, digest);
    components := components + GapPart(report, digest);
    var sources := CollectSources(citations);
    components := components + DirectoryPart(sources);
    page := PageIrV1(components, citations);
  }

  lemma ConflictIsClosed(sections: seq<Section>, digest: Digest)
    ensures AllClosed(ConflictPart(sections, digest), Collected(sections, digest))
  {
    var conflict := FirstConflict(sections, 0);
    if conflict.Some? {
      CardsAreClosed(sections, digest, conflict.value, "conflicts", true);
    }
  }

  lemma PlainIsClosed(components: seq<Component>, citations: seq<PageCitation>)
    requires forall i | 0 <= i < |components| :: !components[i].payload.Cards?
    ensures AllClosed(components, citations)
  {
  }

  lemma PartsAreClosed(report: Report, digest: Digest)
    ensures var citations := Collected(report.sections, digest);
      && AllClosed(SectionComponents(report.sections, digest), citations)
      && AllClosed(ConflictPart(report.sections, digest), citations)
      && AllClosed(ClaimParts(report), citations)
  {
    var sections := report.sections;
    SectionsAreClosed(sections, |sections|, digest);
    assert sections[..|sections|] == sections;
    ConflictIsClosed(sections, digest);
    PlainIsClosed(ClaimParts(report), Collected(sections, digest));
  }

  lemma AllPartsTogether(a: seq<Component>, b: seq<Component>, c: seq<Component>, d: seq<Component>, e: seq<Component>,
                         f: seq<Component>, g: seq<Component>, citations: seq<PageCitation>)
    requires AllClosed(a, citations) && AllClosed(b, citations) && AllClosed(c, citations) && AllClosed(d, citations)
    requires AllClosed(e, citations) && AllClosed(f, citations) && AllClosed(g, citations)
    ensures AllClosed(a + b + c + d + e + f + g, citations)
  {
    ClosedTogether(a, b, citations);
    ClosedTogether(a + b, c, citations);
    ClosedTogether(a + b + c, d, citations);
    ClosedTogether(a + b + c + d, e, citations);
    ClosedTogether(a + b + c + d + e, f, citations);
    ClosedTogether(a + b + c + d + e + f, g, citations);
  }

  /** Every page is closed under its citation ids, and ends with the source directory, whose counts
      add up to the number of its citations. */
  lemma PageIsClosed(report: Report, digest: Digest)
    ensures var page := Page(report, digest);
      && AllClosed(page.components, page.citations)
      && page.components != []
      && var last := page.components[|page.components| - 1].payload;
        last == Sources(Directory(page.citations)) && Total(last.sources) == |page.citations|
  {
    var citations := Collected(report.sections, digest);
    PartsAreClosed(report, digest);
    AllPartsTogether(Opening(report), SectionComponents(report.sections, digest), EvidencePart(citations),
                     ClaimParts(report), ConflictPart(report.sections, digest), GapPart(report, digest),
                     DirectoryPart(Directory(citations)), citations);
    DirectoryAddsUp(citations);
  }

  // ---- which components a page has ----

  predicate HasKey(components: seq<Component>, key: string) {
    exists i | 0 <= i < |components| :: components[i].key == key
  }

  predicate IsSectionKey(key: string) {
    |key| >= 8 && key[..8] == "section-"
  }

  /** Where a component stands on the page. */
  function Place(key: string): nat {
    if key == "hero" then 0
    else if IsSectionKey(key) then 1
    else if key == "evidence-ledger" then 2
    else if key == "timeline" then 3
    else if key == "comparison" then 4
    else if key == "knowledge-graph" then 5
    else if key == "conflicts" then 6
    else if key == "knowledge-gaps" then 7
    else 8
  }

  predicate InPlace(components: seq<Component>) {
    forall i, j | 0 <= i < j < |components| :: Place(components[i].key) <= Place(components[j].key)
  }

  predicate PlacedWithin(components: seq<Component>, low: nat, high: nat) {
    forall i | 0 <= i < |components| :: low <= Place(components[i].key) <= high
  }

  lemma PlacesJoin(a: seq<Component>, b: seq<Component>, low: nat, middle: nat, next: nat, high: nat)
    requires InPlace(a) && InPlace(b) && PlacedWithin(a, low, middle) && PlacedWithin(b, next, high)
    requires low <= middle <= next <= high
    ensures InPlace(a + b) && PlacedWithin(a + b, low, high)
  {
  }

  lemma KeysJoin(a: seq<Component>, b: seq<Component>, key: string)
    ensures HasKey(a + b, key) <==> HasKey(a, key) || HasKey(b, key)
  {
    if i :| 0 <= i < |a| && a[i].key == key {
      assert (a + b)[i].key == key;
    }
    if i :| 0 <= i < |b| && b[i].key == key {
      assert (a + b)[|a| + i].key == key;
    }
  }

  lemma NotSection(key: string)
    requires |key| >= 2 && (key[0] != 's' || key[1] != 'e')
    ensures !IsSectionKey(key)
  {
    if |key| >= 8 {
      assert key[..8][0] == key[0] && key[..8][1] == key[1];
      assert "section-"[0] == 's' && "section-"[1] == 'e';
    }
  }

  lemma PlacesAre()
    ensures Place("hero") == 0 && Place("evidence-ledger") == 2 && Place("timeline") == 3 && Place("comparison") == 4
    ensures Place("knowledge-graph") == 5 && Place("conflicts") == 6 && Place("knowledge-gaps") == 7
    ensures Place("source-directory") == 8
  {
    NotSection("hero");
    NotSection("evidence-ledger");
    NotSection("timeline");
    NotSection("comparison");
    NotSection("knowledge-graph");
    NotSection("conflicts");
    NotSection("knowledge-gaps");
    NotSection("source-directory");
  }

  ghost predicate ShowsSection(sections: seq<Section>, key: string) {
    exists s :: s in sections && s.sectionKind !in ["overview", "unknown", "conflict"] && key == "section-" + s.sectionKind
  }

  lemma ShowsOneMore(init: seq<Section>, last: Section, key: string)
    ensures ShowsSection(init + [last], key) <==>
            ShowsSection(init, key) || (Rendered(last) && key == "section-" + last.sectionKind)
  {
    assert last in init + [last];
    if ShowsSection(init, key) {
      var s :| s in init && s.sectionKind !in ["overview", "unknown", "conflict"] && key == "section-" + s.sectionKind;
      assert s in init + [last];
    }
  }

  lemma {:induction false} SectionsPlaced(sections: seq<Section>, digest: Digest, key: string)
    ensures var parts := SectionComponents(sections, digest);
      && InPlace(parts) && PlacedWithin(parts, 1, 1)
      && (HasKey(parts, key) <==> ShowsSection(sections, key))
  {
    if sections != [] {
      var init, last := sections[..|sections| - 1], sections[|sections| - 1];
      assert sections == init + [last];
      SectionsPlaced(init, digest, key);
      ShowsOneMore(init, last, key);
      if Rendered(last) {
        var own := [CardComponent("section-" + last.sectionKind, last, false, digest)];
        assert IsSectionKey(own[0].key);
        PlacesJoin(SectionComponents(init, digest), own, 1, 1, 1, 1);
        KeysJoin(SectionComponents(init, digest), own, key);
        assert HasKey(own, key) <==> own[0].key == key;
      } else {
        assert SectionComponents(sections, digest) == SectionComponents(init, digest);
      }
    }
  }

  lemma {:induction false} TemporalMeans(claims: seq<Claim>)
    ensures Temporal(claims) != [] <==> exists c :: c in claims && c.temporal
  {
    if claims != [] {
      var init, last := claims[..|claims| - 1], claims[|claims| - 1];
      assert claims == init + [last];
      TemporalMeans(init);
    }
  }

  lemma ClaimPartsPlaced(report: Report, key: string)
    ensures var parts := ClaimParts(report);
      && InPlace(parts) && PlacedWithin(parts, 3, 5)
      && (HasKey(parts, key) <==>
            || (key == "timeline" && exists c :: c in report.claims && c.temporal)
            || (key == "comparison" && |report.claims| > 1)
            || (key == "knowledge-graph" && report.nodeIds != []))
  {
    PlacesAre();
    TemporalMeans(report.claims);
    var temporal := Temporal(report.claims);
    var a := if temporal != [] then [Component("timeline", Plain, DependencyInput(ClaimIds(temporal)))] else [];
    var b := if |report.claims| > 1 then [Component("comparison", Plain, DependencyInput(ClaimIds(report.claims)))] else [];
    var c := if report.nodeIds != [] then
        [Component("knowledge-graph", Plain, DependencyInput(report.nodeIds + report.edgeIds))] else [];
    OnlyKey(a, "timeline", key);
    OnlyKey(b, "comparison", key);
    OnlyKey(c, "knowledge-graph", key);
    PlacesJoin(a, b, 3, 3, 4, 4);
    PlacesJoin(a + b, c, 3, 4, 5, 5);
    KeysJoin(a, b, key);
    KeysJoin(a + b, c, key);
    assert ClaimParts(report) == a + b + c;
  }

  lemma OnlyKey(part: seq<Component>, own: string, key: string)
    requires |part| <= 1 && (part != [] ==> part[0].key == own)
    ensures InPlace(part) && PlacedWithin(part, Place(own), Place(own))
    ensures HasKey(part, key) <==> part != [] && key == own
  {
  }

  /** What a page shows, by what the report holds. */
  ghost predicate Shown(report: Report, key: string) {
    || key in ["hero", "evidence-ledger", "source-directory"]
    || ShowsSection(report.sections, key)
    || (key == "timeline" && exists c :: c in report.claims && c.temporal)
    || (key == "comparison" && |report.claims| > 1)
    || (key == "knowledge-graph" && report.nodeIds != [])
    || (key == "conflicts" && exists s :: s in report.sections && s.sectionKind == "conflict")
    || (key == "knowledge-gaps" && report.gaps != [])
  }

  lemma ConflictPlaced(sections: seq<Section>, digest: Digest, key: string)
    ensures var part := ConflictPart(sections, digest);
      && InPlace(part) && PlacedWithin(part, 6, 6)
      && (HasKey(part, key) <==> key == "conflicts" && exists s :: s in sections && s.sectionKind == "conflict")
  {
    PlacesAre();
    OnlyKey(ConflictPart(sections, digest), "conflicts", key);
    if s :| s in sections && s.sectionKind == "conflict" {
      var i :| 0 <= i < |sections| && sections[i] == s;
      assert OfKind(sections[i], "conflict");
    }
    if FirstConflict(sections, 0).Some? {
      assert sections[FirstConflict(sections, 0).value] in sections;
    }
  }

  lemma LaterPartsPlaced(report: Report, digest: Digest, directory: seq<SourceEntry>, key: string)
    ensures var parts := ConflictPart(report.sections, digest) + GapPart(report, digest) + DirectoryPart(directory);
      && InPlace(parts) && PlacedWithin(parts, 6, 8)
      && (HasKey(parts, key) <==>
            || (key == "conflicts" && exists s :: s in report.sections && s.sectionKind == "conflict")
            || (key == "knowledge-gaps" && report.gaps != [])
            || key == "source-directory")
  {
    PlacesAre();
    var a, b, c := ConflictPart(report.sections, digest), GapPart(report, digest), DirectoryPart(directory);
    ConflictPlaced(report.sections, digest, key);
    OnlyKey(b, "knowledge-gaps", key);
    OnlyKey(c, "source-directory", key);
    PlacesJoin(a, b, 6, 6, 7, 7);
    PlacesJoin(a + b, c, 6, 7, 8, 8);
    KeysJoin(a, b, key);
    KeysJoin(a + b, c, key);
  }

  lemma EarlierPartsPlaced(report: Report, digest: Digest, citations: seq<PageCitation>, key: string)
    ensures var parts := Opening(report) + SectionComponents(report.sections, digest) + EvidencePart(citations);
      && InPlace(parts) && PlacedWithin(parts, 0, 2)
      && (HasKey(parts, key) <==>
            || key == "hero" || key == "evidence-ledger"
            || ShowsSection(report.sections, key))
  {
    PlacesAre();
    var a, b, c := Opening(report), SectionComponents(report.sections, digest), EvidencePart(citations);
    OnlyKey(a, "hero", key);
    SectionsPlaced(report.sections, digest, key);
    OnlyKey(c, "evidence-ledger", key);
    PlacesJoin(a, b, 0, 0, 1, 1);
    PlacesJoin(a + b, c, 0, 1, 2, 2);
    KeysJoin(a, b, key);
    KeysJoin(a + b, c, key);
  }

  lemma SevenParts(a: seq<Component>, b: seq<Component>, c: seq<Component>, d: seq<Component>, e: seq<Component>,
                   f: seq<Component>, g: seq<Component>)
    ensures a + b + c + d + e + f + g == ((a + b + c) + d) + (e + f + g)
  {
  }

  lemma ThreeParts(early: seq<Component>, middle: seq<Component>, late: seq<Component>, key: string)
    requires InPlace(early) && InPlace(middle) && InPlace(late)
    requires PlacedWithin(early, 0, 2) && PlacedWithin(middle, 3, 5) && PlacedWithin(late, 6, 8)
    ensures InPlace(early + middle + late)
    ensures HasKey(early + middle + late, key) <==> HasKey(early, key) || HasKey(middle, key) || HasKey(late, key)
  {
    PlacesJoin(early, middle, 0, 2, 3, 5);
    PlacesJoin(early + middle, late, 0, 5, 6, 8);
    KeysJoin(early, middle, key);
    KeysJoin(early + middle, late, key);
  }

  /** A page has a component exactly if the report calls for it, and its components stand in their order. */
  lemma PageShows(report: Report, digest: Digest, key: string)
    ensures HasKey(Page(report, digest).components, key) <==> Shown(report, key)
    ensures InPlace(Page(report, digest).components)
  {
    var citations := Collected(report.sections, digest);
    EarlierPartsPlaced(report, digest, citations, key);
    ClaimPartsPlaced(report, key);
    LaterPartsPlaced(report, digest, Directory(citations), key);
    SevenParts(Opening(report), SectionComponents(report.sections, digest), EvidencePart(citations), ClaimParts(report),
               ConflictPart(report.sections, digest), GapPart(report, digest), DirectoryPart(Directory(citations)));
    ThreeParts(Opening(report) + SectionComponents(report.sections, digest) + EvidencePart(citations), ClaimParts(report),
               ConflictPart(report.sections, digest) + GapPart(report, digest) + DirectoryPart(Directory(citations)), key);
  }
}
