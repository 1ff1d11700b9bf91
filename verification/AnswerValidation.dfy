/** Publishing only what the cited evidence carries (validateAnswer in ask.ts). */
module AnswerValidation {
  import opened Outcomes
  import opened OrderedMaps
  import opened Grounding
  import opened ContextAssembly

  datatype Conclusion = Fact | SingleSource | UserOpinion | Inference | Conflicting | Undetermined | ModelKnowledge

  datatype Citation = Citation(evidenceKey: string, supportingExcerpt: Text)

  datatype Statement = Statement(text: Text, conclusion: Conclusion, citations: seq<Citation>)

  datatype ResultKind = Answered | InsufficientEvidence | Conflicted | CannotDetermine

  datatype Confidence = HighLevel | MediumLevel | LowLevel | UnknownLevel | DisputedLevel

  datatype GroundedCitation = GroundedCitation(evidenceKey: string, contextOrdinal: nat, excerptStart: nat,
                                               excerptEnd: nat, excerpt: Text)

  datatype Published = Published(text: Text, conclusion: Conclusion, confidence: Confidence,
                                 citations: seq<GroundedCitation>)

  datatype Summary = ConflictNotice | Lines(text: Text) | StandardMessage(kind: ResultKind)

  datatype Validated = Validated(kind: ResultKind, summary: Summary, statements: seq<Published>)

  datatype Unsupported = ModelKnowledgeNotAllowed | NoCitation | UnknownEvidence | ExcerptNotPresent | NotAnAssertion
                       | TooFewCitations

  /** An item and its index in the context. */
  datatype Placed = Placed(item: Item, index: nat)

  function Placements(items: seq<Item>): (pairs: seq<Entry<string, Placed>>)
    ensures |pairs| == |items|
    ensures forall i | 0 <= i < |items| :: pairs[i] == Entry(items[i].evidenceKey, Placed(items[i], i))
  {
    seq(|items|, i requires 0 <= i < |items| => Entry(items[i].evidenceKey, Placed(items[i], i)))
  }

  function Find(items: seq<Item>, key: string): Option<Placed> {
    Get(MapOf(Placements(items)), key)
  }

  /** `s.slice(start, end)` for non-negative offsets. */
  function Slice(s: Text, start: nat, end: nat): Text {
    var lo, hi := Min(start, |s|), Min(end, |s|);
    if lo <= hi then s[lo..hi] else []
  }

  function Window(item: Item): Text {
    Slice(item.content, item.excerptStart, item.excerptEnd)
  }

  function Ground(c: Citation, items: seq<Item>, fold: Fold): Result<GroundedCitation, Unsupported> {
    match Find(items, c.evidenceKey)
    case None => Failure(UnknownEvidence)
    case Some(selected) =>
      match Locate(Window(selected.item), c.supportingExcerpt, fold)
      case None => Failure(ExcerptNotPresent)
      case Some(span) =>
        var base := selected.item.excerptStart;
        Success(GroundedCitation(c.evidenceKey, selected.index + 1, base + span.start, base + span.end, span.text))
  }

  function GroundAll(cs: seq<Citation>, items: seq<Item>, fold: Fold): Result<seq<GroundedCitation>, Unsupported> {
    if cs == [] then Success([])
    else
      match Ground(cs[0], items, fold)
      case Failure(e) => Failure(e)
      case Success(first) =>
        match GroundAll(cs[1..], items, fold)
        case Failure(e) => Failure(e)
        case Success(rest) => Success([first] + rest)
  }

  /** The statement's text as the first citation that contains it has it. */
  function FirstAssertion(citations: seq<GroundedCitation>, text: Text, fold: Fold): Option<Span> {
    if citations == [] then None
    else
      match Locate(citations[0].excerpt, text, fold)
      case Some(span) => Some(span)
      case None => FirstAssertion(citations[1..], text, fold)
  }

  function CitedItems(cs: seq<Citation>, items: seq<Item>): seq<Item> {
    if cs == [] then []
    else
      (match Find(items, cs[0].evidenceKey)
       case None => []
       case Some(selected) => [selected.item]) + CitedItems(cs[1..], items)
  }

  predicate IsDisputed(item: Item) {
    item.claimStatus == Some("disputed") || item.role == GraphContradict
  }

  function Sources(cited: seq<Item>): set<string> {
    set i | 0 <= i < |cited| :: cited[i].provenance.sourceId
  }

  predicate HasLevel(cited: seq<Item>, level: string) {
    exists i | 0 <= i < |cited| :: cited[i].confidenceLevel == Some(level)
  }

  function StrongestConfidence(cited: seq<Item>): Confidence {
    if HasLevel(cited, "high") then HighLevel
    else if HasLevel(cited, "medium") then MediumLevel
    else if HasLevel(cited, "low") then LowLevel
    else UnknownLevel
  }

  predicate MustBeAsserted(c: Conclusion) {
    c in {Fact, SingleSource, UserOpinion, Conflicting}
  }

  function PublishedText(s: Statement, citations: seq<GroundedCitation>, fold: Fold): Result<Text, Unsupported> {
    if MustBeAsserted(s.conclusion) then
      match FirstAssertion(citations, s.text, fold)
      case None => Failure(NotAnAssertion)
      case Some(span) => Success(span.text)
    else Success(s.text)
  }

  function Concluded(s: Statement, items: seq<Item>): Conclusion {
    var cited := CitedItems(s.citations, items);
    if exists i | 0 <= i < |cited| :: IsDisputed(cited[i]) then Conflicting
    else if s.conclusion == Fact && |Sources(cited)| < 2 then SingleSource
    else s.conclusion
  }

  function Publish(s: Statement, items: seq<Item>, allowModelKnowledge: bool, fold: Fold): Result<Published, Unsupported> {
    if s.conclusion == ModelKnowledge then
      if !allowModelKnowledge || s.citations != [] then Failure(ModelKnowledgeNotAllowed)
      else Success(Published(s.text, ModelKnowledge, UnknownLevel, []))
    else if s.conclusion != Undetermined && s.citations == [] then Failure(NoCitation)
    else
      match GroundAll(s.citations, items, fold)
      case Failure(e) => Failure(e)
      case Success(citations) =>
        match PublishedText(s, citations, fold)
        case Failure(e) => Failure(e)
        case Success(text) =>
          if s.conclusion == Inference && |s.citations| < 2 then Failure(TooFewCitations)
          else
            var cited := CitedItems(s.citations, items);
            var conclusion := Concluded(s, items);
            var disputed := exists i | 0 <= i < |cited| :: IsDisputed(cited[i]);
            Success(Published(text, conclusion,
                              if disputed then DisputedLevel else StrongestConfidence(cited), citations))
  }

  function PublishAll(ss: seq<Statement>, items: seq<Item>, allow: bool, fold: Fold): Result<seq<Published>, Unsupported> {
    if ss == [] then Success([])
    else
      match Publish(ss[0], items, allow, fold)
      case Failure(e) => Failure(e)
      case Success(first) =>
        match PublishAll(ss[1..], items, allow, fold)
        case Failure(e) => Failure(e)
        case Success(rest) => Success([first] + rest)
  }

  function JoinLines(ps: seq<Published>): Text {
    if ps == [] then []
    else if |ps| == 1 then ps[0].text
    else ps[0].text + [10] + JoinLines(ps[1..])
  }

  predicate HasConflict(ps: seq<Published>) {
    exists i | 0 <= i < |ps| :: ps[i].conclusion == Conflicting
  }

  function Validate(kind: ResultKind, ss: seq<Statement>, items: seq<Item>, allow: bool, fold: Fold)
    : Result<Validated, Unsupported>
  {
    match PublishAll(ss, items, allow, fold)
    case Failure(e) => Failure(e)
    case Success(ps) =>
      var result := if HasConflict(ps) then Conflicted else kind;
      var lines := JoinLines(ps);
      Success(Validated(result,
                        if result == Conflicted then ConflictNotice
                        else if lines != [] then Lines(lines) else StandardMessage(result),
                        ps))
  }

  // ---- statement by statement ----

  lemma {:induction false} PublishedOneByOne(ss: seq<Statement>, items: seq<Item>, allow: bool, fold: Fold, k: nat)
    requires PublishAll(ss, items, allow, fold).Success? && k < |ss|
    ensures |PublishAll(ss, items, allow, fold).value| == |ss|
    ensures Publish(ss[k], items, allow, fold) == Success(PublishAll(ss, items, allow, fold).value[k])
  {
    if |ss| > 1 {
      PublishedOneByOne(ss[1..], items, allow, fold, if k > 0 then k - 1 else 0);
    }
  }

  lemma {:induction false} PublishedCount(ss: seq<Statement>, items: seq<Item>, allow: bool, fold: Fold)
    requires PublishAll(ss, items, allow, fold).Success?
    ensures |PublishAll(ss, items, allow, fold).value| == |ss|
  {
    if ss != [] {
      PublishedOneByOne(ss, items, allow, fold, 0);
    }
  }

  lemma {:induction false} GroundedOneByOne(cs: seq<Citation>, items: seq<Item>, fold: Fold, k: nat)
    requires GroundAll(cs, items, fold).Success? && k < |cs|
    ensures |GroundAll(cs, items, fold).value| == |cs|
    ensures Ground(cs[k], items, fold) == Success(GroundAll(cs, items, fold).value[k])
  {
    if |cs| > 1 {
      GroundedOneByOne(cs[1..], items, fold, if k > 0 then k - 1 else 0);
    }
  }

  lemma FoundIsPlaced(items: seq<Item>, key: string)
    requires Find(items, key).Some?
    ensures var p := Find(items, key).value;
      p.index < |items| && items[p.index] == p.item && p.item.evidenceKey == key
  {
    var i := FoundInPairs(Placements(items), key);
  }

  predicate ValidWindows(items: seq<Item>) {
    forall i | 0 <= i < |items| :: items[i].excerptStart <= items[i].excerptEnd <= |items[i].content|
  }

  /** The citation names an item, and is exactly a part of that item's excerpt window. */
  predicate QuotesItem(c: GroundedCitation, items: seq<Item>) {
    && 1 <= c.contextOrdinal <= |items|
    && var item := items[c.contextOrdinal - 1];
      && item.evidenceKey == c.evidenceKey
      && item.excerptStart <= c.excerptStart <= c.excerptEnd <= item.excerptEnd <= |item.content|
      && c.excerpt == item.content[c.excerptStart..c.excerptEnd]
  }

  lemma GroundMeans(c: Citation, items: seq<Item>, fold: Fold)
    requires Ground(c, items, fold).Success?
    ensures Find(items, c.evidenceKey).Some?
    ensures var p := Find(items, c.evidenceKey).value;
      && p.index < |items| && items[p.index] == p.item && p.item.evidenceKey == c.evidenceKey
      && Locate(Window(p.item), c.supportingExcerpt, fold).Some?
      && var span := Locate(Window(p.item), c.supportingExcerpt, fold).value;
        Ground(c, items, fold).value == GroundedCitation(c.evidenceKey, p.index + 1, p.item.excerptStart + span.start,
                                                         p.item.excerptStart + span.end, span.text)
  {
    FoundIsPlaced(items, c.evidenceKey);
  }

  lemma SpanQuotes(item: Item, requested: Text, fold: Fold)
    requires item.excerptStart <= item.excerptEnd <= |item.content|
    requires Locate(Window(item), requested, fold).Some?
    ensures var span := Locate(Window(item), requested, fold).value;
      && span.start <= span.end <= item.excerptEnd - item.excerptStart
      && span.text == item.content[item.excerptStart + span.start..item.excerptStart + span.end]
  {
    LocatedIsASlice(Window(item), requested, fold);
    var span := Locate(Window(item), requested, fold).value;
    SliceOfWindow(item.content, item.excerptStart, item.excerptEnd, span.start, span.end);
  }

  lemma GroundedQuotes(c: Citation, items: seq<Item>, fold: Fold)
    requires ValidWindows(items) && Ground(c, items, fold).Success?
    ensures QuotesItem(Ground(c, items, fold).value, items)
    ensures Find(items, c.evidenceKey).Some?
    ensures items[Ground(c, items, fold).value.contextOrdinal - 1] == Find(items, c.evidenceKey).value.item
  {
    GroundMeans(c, items, fold);
    SpanQuotes(Find(items, c.evidenceKey).value.item, c.supportingExcerpt, fold);
  }

  lemma SliceOfWindow(s: Text, start: nat, end: nat, a: nat, b: nat)
    requires start <= end <= |s| && a <= b <= end - start
    ensures Slice(s, start, end)[a..b] == s[start + a..start + b]
  {
  }

  /** Every published citation quotes its item word for word, from inside the window the model
      was shown. */
  lemma CitationsQuoteTheirItems(kind: ResultKind, ss: seq<Statement>, items: seq<Item>, allow: bool, fold: Fold,
                                 k: nat, j: nat)
    requires ValidWindows(items) && Validate(kind, ss, items, allow, fold).Success?
    requires var ps := Validate(kind, ss, items, allow, fold).value.statements;
      k < |ps| && j < |ps[k].citations|
    ensures QuotesItem(Validate(kind, ss, items, allow, fold).value.statements[k].citations[j], items)
  {
    PublishedCount(ss, items, allow, fold);
    PublishedOneByOne(ss, items, allow, fold, k);
    GroundedOneByOneOf(ss[k], items, allow, fold, j);
    GroundedQuotes(ss[k].citations[j], items, fold);
  }

  lemma GroundedOneByOneOf(s: Statement, items: seq<Item>, allow: bool, fold: Fold, j: nat)
    requires Publish(s, items, allow, fold).Success? && j < |Publish(s, items, allow, fold).value.citations|
    ensures j < |s.citations|
    ensures Ground(s.citations[j], items, fold) == Success(Publish(s, items, allow, fold).value.citations[j])
  {
    assert s.citations != [];
    GroundedOneByOne(s.citations, items, fold, 0);
    GroundedOneByOne(s.citations, items, fold, j);
  }

  lemma {:induction false} FirstAssertionIsASlice(citations: seq<GroundedCitation>, text: Text, fold: Fold)
    returns (j: nat)
    requires FirstAssertion(citations, text, fold).Some?
    ensures j < |citations| && Contains(citations[j].excerpt, FirstAssertion(citations, text, fold).value.text)
    ensures Locate(citations[j].excerpt, text, fold) == FirstAssertion(citations, text, fold)
    ensures forall i | 0 <= i < j :: Locate(citations[i].excerpt, text, fold).None?
  {
    if Locate(citations[0].excerpt, text, fold).Some? {
      j := 0;
      LocatedIsASlice(citations[0].excerpt, text, fold);
      var span := Locate(citations[0].excerpt, text, fold).value;
      assert OccursAt(citations[0].excerpt, span.text, span.start);
    } else {
      j := FirstAssertionIsASlice(citations[1..], text, fold);
      j := j + 1;
    }
  }

  /** A published fact, single-source statement or opinion is verbatim in one of its citations: the
      first in which the statement is found. */
  lemma AssertionsAreVerbatim(s: Statement, items: seq<Item>, allow: bool, fold: Fold) returns (j: nat)
    requires Publish(s, items, allow, fold).Success?
    requires MustBeAsserted(s.conclusion)
             || Publish(s, items, allow, fold).value.conclusion in {Fact, SingleSource, UserOpinion}
    ensures var p := Publish(s, items, allow, fold).value;
      && j < |p.citations| && Contains(p.citations[j].excerpt, p.text)
      && Locate(p.citations[j].excerpt, s.text, fold).Some? && Locate(p.citations[j].excerpt, s.text, fold).value.text == p.text
      && forall i | 0 <= i < j :: Locate(p.citations[i].excerpt, s.text, fold).None?
  {
    j := FirstAssertionIsASlice(Publish(s, items, allow, fold).value.citations, s.text, fold);
  }

  lemma {:induction false} CitedItemIsListed(cs: seq<Citation>, items: seq<Item>, j: nat) returns (i: nat)
    requires j < |cs| && Find(items, cs[j].evidenceKey).Some?
    ensures i < |CitedItems(cs, items)| && CitedItems(cs, items)[i] == Find(items, cs[j].evidenceKey).value.item
  {
    if j == 0 {
      i := 0;
    } else {
      i := CitedItemIsListed(cs[1..], items, j - 1);
      if Find(items, cs[0].evidenceKey).Some? {
        i := i + 1;
      }
    }
  }

  lemma {:induction false} ListedItemIsCited(cs: seq<Citation>, items: seq<Item>, i: nat) returns (j: nat)
    requires i < |CitedItems(cs, items)|
    ensures j < |cs| && Find(items, cs[j].evidenceKey).Some?
    ensures Find(items, cs[j].evidenceKey).value.item == CitedItems(cs, items)[i]
  {
    var here := if Find(items, cs[0].evidenceKey).Some? then 1 else 0;
    if i < here {
      j := 0;
    } else {
      j := ListedItemIsCited(cs[1..], items, i - here);
      j := j + 1;
    }
  }

  /** The item a published citation quotes. */
  function QuotedItem(c: GroundedCitation, items: seq<Item>): Item
    requires QuotesItem(c, items)
  {
    items[c.contextOrdinal - 1]
  }

  lemma GroundedNamesItem(c: Citation, g: GroundedCitation, items: seq<Item>, fold: Fold)
    requires ValidWindows(items) && Ground(c, items, fold) == Success(g)
    ensures Find(items, c.evidenceKey).Some?
    ensures QuotesItem(g, items) && QuotedItem(g, items) == Find(items, c.evidenceKey).value.item
  {
    GroundedQuotes(c, items, fold);
  }

  lemma CitedItemsAreQuoted(s: Statement, items: seq<Item>, allow: bool, fold: Fold, j: nat)
    requires ValidWindows(items) && Publish(s, items, allow, fold).Success?
    requires j < |Publish(s, items, allow, fold).value.citations|
    ensures j < |s.citations| && Find(items, s.citations[j].evidenceKey).Some?
    ensures var c := Publish(s, items, allow, fold).value.citations[j];
      QuotesItem(c, items) && QuotedItem(c, items) == Find(items, s.citations[j].evidenceKey).value.item
  {
    GroundedOneByOneOf(s, items, allow, fold, j);
    GroundedNamesItem(s.citations[j], Publish(s, items, allow, fold).value.citations[j], items, fold);
  }

  lemma TwoSources(cited: seq<Item>) returns (a: nat, b: nat)
    requires |Sources(cited)| >= 2
    ensures a < |cited| && b < |cited| && cited[a].provenance.sourceId != cited[b].provenance.sourceId
  {
    var x :| x in Sources(cited);
    var rest := Sources(cited) - {x};
    assert Sources(cited) == rest + {x};
    var y :| y in rest;
    a :| 0 <= a < |cited| && cited[a].provenance.sourceId == x;
    b :| 0 <= b < |cited| && cited[b].provenance.sourceId == y;
  }

  /** What is published as a fact rests on items of two sources, none of them disputed. */
  lemma FactsHaveTwoSources(s: Statement, items: seq<Item>, allow: bool, fold: Fold) returns (a: nat, b: nat)
    requires ValidWindows(items) && Publish(s, items, allow, fold).Success?
    requires Publish(s, items, allow, fold).value.conclusion == Fact
    ensures var cs := Publish(s, items, allow, fold).value.citations;
      && a < |cs| && b < |cs| && QuotesItem(cs[a], items) && QuotesItem(cs[b], items)
      && QuotedItem(cs[a], items).provenance.sourceId != QuotedItem(cs[b], items).provenance.sourceId
      && (forall j | 0 <= j < |cs| :: QuotesItem(cs[j], items) && !IsDisputed(QuotedItem(cs[j], items)))
  {
    var cs := Publish(s, items, allow, fold).value.citations;
    var cited := CitedItems(s.citations, items);
    var x, y := TwoSources(cited);
    a := ListedItemIsCited(s.citations, items, x);
    b := ListedItemIsCited(s.citations, items, y);
    GroundedOneByOne(s.citations, items, fold, 0);
    CitedItemsAreQuoted(s, items, allow, fold, a);
    CitedItemsAreQuoted(s, items, allow, fold, b);
    forall j | 0 <= j < |cs| ensures QuotesItem(cs[j], items) && !IsDisputed(QuotedItem(cs[j], items)) {
      CitedItemsAreQuoted(s, items, allow, fold, j);
      var i := CitedItemIsListed(s.citations, items, j);
    }
  }

  /** What quotes a disputed item is published as a conflict, and nothing else turns into one. */
  lemma ConflictIff(s: Statement, items: seq<Item>, allow: bool, fold: Fold)
    requires ValidWindows(items) && Publish(s, items, allow, fold).Success?
    ensures var p := Publish(s, items, allow, fold).value;
      && (forall j | 0 <= j < |p.citations| :: QuotesItem(p.citations[j], items))
      && (p.conclusion == Conflicting <==>
          s.conclusion == Conflicting
          || exists j | 0 <= j < |p.citations| :: IsDisputed(QuotedItem(p.citations[j], items)))
  {
    var p := Publish(s, items, allow, fold).value;
    var cited := CitedItems(s.citations, items);
    if p.citations != [] {
      GroundedOneByOneOf(s, items, allow, fold, 0);
      GroundedOneByOne(s.citations, items, fold, 0);
    }
    forall j | 0 <= j < |p.citations|
      ensures QuotesItem(p.citations[j], items)
      ensures IsDisputed(QuotedItem(p.citations[j], items)) ==> p.conclusion == Conflicting
    {
      CitedItemsAreQuoted(s, items, allow, fold, j);
      var i := CitedItemIsListed(s.citations, items, j);
    }
    if i :| 0 <= i < |cited| && IsDisputed(cited[i]) {
      var j := ListedItemIsCited(s.citations, items, i);
      if s.conclusion != ModelKnowledge {
        GroundedOneByOne(s.citations, items, fold, j);
        CitedItemsAreQuoted(s, items, allow, fold, j);
      }
    }
  }

  /** Everything but the undetermined and the model's own knowledge is cited; an inference twice. */
  lemma ConclusionsAreCited(s: Statement, items: seq<Item>, allow: bool, fold: Fold)
    requires Publish(s, items, allow, fold).Success?
    ensures var p := Publish(s, items, allow, fold).value;
      && |p.citations| == |s.citations|
      && (p.conclusion == ModelKnowledge ==> allow && p.citations == [])
      && (p.conclusion !in {Undetermined, ModelKnowledge} ==> p.citations != [])
      && (p.conclusion == Inference ==> |p.citations| >= 2)
  {
    if s.citations != [] && s.conclusion != ModelKnowledge {
      GroundedOneByOne(s.citations, items, fold, 0);
    }
  }

  predicate Quotes(c: GroundedCitation, items: seq<Item>, item: Item) {
    QuotesItem(c, items) && QuotedItem(c, items) == item
  }

  /** A published citation quotes a disputed item. */
  predicate QuotesDisputed(cs: seq<GroundedCitation>, items: seq<Item>) {
    exists j | 0 <= j < |cs| :: QuotesItem(cs[j], items)
      && (QuotedItem(cs[j], items).claimStatus == Some("disputed") || QuotedItem(cs[j], items).role == GraphContradict)
  }

  /** Two published citations quote items of different sources. */
  predicate QuotesTwoSources(cs: seq<GroundedCitation>, items: seq<Item>) {
    exists a, b | 0 <= a < |cs| && 0 <= b < |cs| :: QuotesItem(cs[a], items) && QuotesItem(cs[b], items)
      && QuotedItem(cs[a], items).provenance.sourceId != QuotedItem(cs[b], items).provenance.sourceId
  }

  predicate QuotesLevel(cs: seq<GroundedCitation>, items: seq<Item>, level: string) {
    exists j | 0 <= j < |cs| :: QuotesItem(cs[j], items) && QuotedItem(cs[j], items).confidenceLevel == Some(level)
  }

  /** The citations quote these items and no others. */
  ghost predicate QuotesExactly(cs: seq<GroundedCitation>, items: seq<Item>, cited: seq<Item>) {
    && (forall j | 0 <= j < |cs| :: QuotesItem(cs[j], items) && QuotedItem(cs[j], items) in cited)
    && (forall item | item in cited :: QuotedBySome(cs, items, item))
  }

  ghost predicate QuotedBySome(cs: seq<GroundedCitation>, items: seq<Item>, item: Item) {
    exists j | 0 <= j < |cs| :: Quotes(cs[j], items, item)
  }

  lemma {:induction false} QuotedAreCited(s: Statement, items: seq<Item>, allow: bool, fold: Fold)
    requires ValidWindows(items) && Publish(s, items, allow, fold).Success?
    ensures QuotesExactly(Publish(s, items, allow, fold).value.citations, items, CitedItems(s.citations, items))
  {
    var cs, cited := Publish(s, items, allow, fold).value.citations, CitedItems(s.citations, items);
    ConclusionsAreCited(s, items, allow, fold);
    forall j | 0 <= j < |cs| ensures QuotesItem(cs[j], items) && QuotedItem(cs[j], items) in cited {
      CitedItemsAreQuoted(s, items, allow, fold, j);
      var i := CitedItemIsListed(s.citations, items, j);
    }
    forall item | item in cited ensures QuotedBySome(cs, items, item) {
      var i :| 0 <= i < |cited| && cited[i] == item;
      var j := ListedItemIsCited(s.citations, items, i);
      CitedItemsAreQuoted(s, items, allow, fold, j);
      assert Quotes(cs[j], items, item);
    }
  }

  lemma {:induction false} DisputedAlike(cs: seq<GroundedCitation>, items: seq<Item>, cited: seq<Item>)
    requires QuotesExactly(cs, items, cited)
    ensures QuotesDisputed(cs, items) <==> exists i | 0 <= i < |cited| :: IsDisputed(cited[i])
  {
    if i :| 0 <= i < |cited| && IsDisputed(cited[i]) {
      assert QuotedBySome(cs, items, cited[i]);
    }
    if QuotesDisputed(cs, items) {
      var j :| 0 <= j < |cs| && QuotesItem(cs[j], items) && IsDisputed(QuotedItem(cs[j], items));
      assert QuotedItem(cs[j], items) in cited;
    }
  }

  lemma {:induction false} LevelAlike(cs: seq<GroundedCitation>, items: seq<Item>, cited: seq<Item>, level: string)
    requires QuotesExactly(cs, items, cited)
    ensures QuotesLevel(cs, items, level) <==> HasLevel(cited, level)
  {
    if i :| 0 <= i < |cited| && cited[i].confidenceLevel == Some(level) {
      assert QuotedBySome(cs, items, cited[i]);
    }
    if QuotesLevel(cs, items, level) {
      var j :| 0 <= j < |cs| && QuotesItem(cs[j], items) && QuotedItem(cs[j], items).confidenceLevel == Some(level);
      assert QuotedItem(cs[j], items) in cited;
    }
  }

  lemma {:induction false} SourcesAlike(cs: seq<GroundedCitation>, items: seq<Item>, cited: seq<Item>)
    requires QuotesExactly(cs, items, cited)
    ensures QuotesTwoSources(cs, items) <==> |Sources(cited)| >= 2
  {
    if |Sources(cited)| >= 2 {
      var a, b := TwoSources(cited);
      assert QuotedBySome(cs, items, cited[a]) && QuotedBySome(cs, items, cited[b]);
    }
    if QuotesTwoSources(cs, items) {
      var a, b :| 0 <= a < |cs| && 0 <= b < |cs| && QuotesItem(cs[a], items) && QuotesItem(cs[b], items)
        && QuotedItem(cs[a], items).provenance.sourceId != QuotedItem(cs[b], items).provenance.sourceId;
      TwoItemsTwoSources(cited, QuotedItem(cs[a], items), QuotedItem(cs[b], items));
    }
  }

  lemma TwoItemsTwoSources(cited: seq<Item>, x: Item, y: Item)
    requires x in cited && y in cited && x.provenance.sourceId != y.provenance.sourceId
    ensures |Sources(cited)| >= 2
  {
    var two := {x.provenance.sourceId, y.provenance.sourceId};
    var rest := Sources(cited) - two;
    assert Sources(cited) == two + rest;
  }

  /** What an accepted statement is published as, by the items its published citations quote. A disputed
      item makes it a conflict; a fact stays one exactly if two sources carry it; everything else is kept.
      The confidence is the strongest of the items quoted, unless one is disputed. */
  lemma {:induction false} PublishedAs(s: Statement, items: seq<Item>, allow: bool, fold: Fold)
    requires ValidWindows(items) && Publish(s, items, allow, fold).Success?
    ensures var p := Publish(s, items, allow, fold).value;
      var disputed, two := QuotesDisputed(p.citations, items), QuotesTwoSources(p.citations, items);
      && (p.conclusion == Conflicting <==> s.conclusion == Conflicting || disputed)
      && (p.conclusion == Fact <==> s.conclusion == Fact && !disputed && two)
      && (p.conclusion == SingleSource <==> !disputed && (s.conclusion == SingleSource || (s.conclusion == Fact && !two)))
      && (p.conclusion in {UserOpinion, Inference, Undetermined, ModelKnowledge} <==>
          !disputed && s.conclusion in {UserOpinion, Inference, Undetermined, ModelKnowledge})
      && (p.conclusion in {UserOpinion, Inference, Undetermined, ModelKnowledge} ==> p.conclusion == s.conclusion)
    ensures var p := Publish(s, items, allow, fold).value;
      p.confidence == if QuotesDisputed(p.citations, items) then DisputedLevel
                      else if QuotesLevel(p.citations, items, "high") then HighLevel
                      else if QuotesLevel(p.citations, items, "medium") then MediumLevel
                      else if QuotesLevel(p.citations, items, "low") then LowLevel
                      else UnknownLevel
  {
    var cs, cited := Publish(s, items, allow, fold).value.citations, CitedItems(s.citations, items);
    QuotedAreCited(s, items, allow, fold);
    DisputedAlike(cs, items, cited);
    SourcesAlike(cs, items, cited);
    LevelAlike(cs, items, cited, "high");
    LevelAlike(cs, items, cited, "medium");
    LevelAlike(cs, items, cited, "low");
  }

  predicate NamesTwoKeys(cs: seq<Citation>) {
    exists i, j | 0 <= i < |cs| && 0 <= j < |cs| :: cs[i].evidenceKey != cs[j].evidenceKey
  }

  predicate QuotesTwoItems(cs: seq<GroundedCitation>) {
    exists i, j | 0 <= i < |cs| && 0 <= j < |cs| :: cs[i].contextOrdinal != cs[j].contextOrdinal
  }

  lemma OneKeyOneItem(c: Citation, g: GroundedCitation, d: Citation, h: GroundedCitation, items: seq<Item>, fold: Fold)
    requires Ground(c, items, fold) == Success(g) && Ground(d, items, fold) == Success(h)
    ensures g.contextOrdinal == h.contextOrdinal <==> c.evidenceKey == d.evidenceKey
  {
    GroundMeans(c, items, fold);
    GroundMeans(d, items, fold);
  }

  lemma TwoKeysTwoItems(cs: seq<Citation>, gs: seq<GroundedCitation>, items: seq<Item>, fold: Fold)
    requires |cs| == |gs| && forall i | 0 <= i < |cs| :: Ground(cs[i], items, fold) == Success(gs[i])
    ensures QuotesTwoItems(gs) <==> NamesTwoKeys(cs)
  {
    forall i, j | 0 <= i < |cs| && 0 <= j < |cs|
      ensures gs[i].contextOrdinal == gs[j].contextOrdinal <==> cs[i].evidenceKey == cs[j].evidenceKey
    {
      OneKeyOneItem(cs[i], gs[i], cs[j], gs[j], items, fold);
    }
  }

  /** A published inference quotes two items exactly when its citations name two evidence keys. */
  lemma InferenceQuotesTwoItemsIff(s: Statement, items: seq<Item>, allow: bool, fold: Fold)
    requires Publish(s, items, allow, fold).Success?
    requires Publish(s, items, allow, fold).value.conclusion == Inference
    ensures QuotesTwoItems(Publish(s, items, allow, fold).value.citations) <==> NamesTwoKeys(s.citations)
  {
    var cs := Publish(s, items, allow, fold).value.citations;
    ConclusionsAreCited(s, items, allow, fold);
    forall i | 0 <= i < |cs| ensures Ground(s.citations[i], items, fold) == Success(cs[i]) {
      GroundedOneByOneOf(s, items, allow, fold, i);
    }
    TwoKeysTwoItems(s.citations, cs, items, fold);
  }

  /** The rule that an inference has two citations counts citations, not items: one item cited
      twice carries an inference whenever it carries one citation. */
  lemma OneItemCarriesAnInference(text: Text, c: Citation, items: seq<Item>, allow: bool, fold: Fold)
    ensures Publish(Statement(text, Inference, [c, c]), items, allow, fold).Success? <==> Ground(c, items, fold).Success?
    ensures !NamesTwoKeys([c, c])
  {
    var cs := [c, c];
    assert cs[1..] == [c] && cs[1..][1..] == [];
    assert GroundAll([c], items, fold).Success? <==> Ground(c, items, fold).Success?;
  }

  /** The answer is conflicted exactly when a statement is, or the model said so. */
  lemma ConflictedIff(kind: ResultKind, ss: seq<Statement>, items: seq<Item>, allow: bool, fold: Fold)
    requires Validate(kind, ss, items, allow, fold).Success?
    ensures var v := Validate(kind, ss, items, allow, fold).value;
      && |v.statements| == |ss|
      && (v.kind == Conflicted <==> kind == Conflicted || HasConflict(v.statements))
      && (v.kind != Conflicted ==> v.kind == kind)
      && (v.summary == ConflictNotice <==> v.kind == Conflicted)
  {
    PublishedCount(ss, items, allow, fold);
  }

  lemma {:induction false} LinesHoldEach(ps: seq<Published>, k: nat)
    requires k < |ps|
    ensures Contains(JoinLines(ps), ps[k].text)
  {
    if |ps| == 1 {
      assert OccursAt(JoinLines(ps), ps[0].text, 0);
    } else if k == 0 {
      assert OccursAt(JoinLines(ps), ps[0].text, 0);
    } else {
      LinesHoldEach(ps[1..], k - 1);
      var at :| 0 <= at <= |JoinLines(ps[1..])| && OccursAt(JoinLines(ps[1..]), ps[k].text, at);
      OccursLater(ps[0].text + [10], JoinLines(ps[1..]), ps[k].text, at);
    }
  }

  lemma OccursLater(first: Text, rest: Text, text: Text, at: nat)
    requires OccursAt(rest, text, at)
    ensures Contains(first + rest, text)
  {
    assert OccursAt(first + rest, text, |first| + at);
  }

  /** An answer without a conflict is summed up by lines that hold every statement; the standard message
      stands in only where there is nothing to say. */
  lemma {:induction false} SummaryHoldsStatements(kind: ResultKind, ss: seq<Statement>, items: seq<Item>, allow: bool, fold: Fold)
    requires Validate(kind, ss, items, allow, fold).Success?
    requires Validate(kind, ss, items, allow, fold).value.kind != Conflicted
    ensures var v := Validate(kind, ss, items, allow, fold).value;
      && (v.summary.StandardMessage? <==> v.statements == [] || (|v.statements| == 1 && v.statements[0].text == []))
      && (v.summary.StandardMessage? ==> v.summary.kind == kind)
      && (v.summary.Lines? ==> forall k | 0 <= k < |v.statements| :: Contains(v.summary.text, v.statements[k].text))
  {
    var v := Validate(kind, ss, items, allow, fold).value;
    forall k | 0 <= k < |v.statements| ensures Contains(JoinLines(v.statements), v.statements[k].text) {
      LinesHoldEach(v.statements, k);
    }
  }

  // ---- what is refused ----

  lemma {:induction false} GroundAllIff(cs: seq<Citation>, items: seq<Item>, fold: Fold)
    ensures GroundAll(cs, items, fold).Success? <==> forall j | 0 <= j < |cs| :: Ground(cs[j], items, fold).Success?
  {
    if cs != [] {
      GroundAllIff(cs[1..], items, fold);
      assert forall j | 1 <= j < |cs| :: cs[j] == cs[1..][j - 1];
    }
  }

  lemma {:induction false} FirstAssertionIff(citations: seq<GroundedCitation>, text: Text, fold: Fold)
    ensures FirstAssertion(citations, text, fold).Some? <==>
            exists j | 0 <= j < |citations| :: Locate(citations[j].excerpt, text, fold).Some?
  {
    if citations != [] {
      FirstAssertionIff(citations[1..], text, fold);
      assert forall j | 1 <= j < |citations| :: citations[j] == citations[1..][j - 1];
    }
  }

  /** The excerpt a citation is published with. */
  predicate Asserts(c: Citation, text: Text, items: seq<Item>, fold: Fold) {
    Ground(c, items, fold).Success? && Locate(Ground(c, items, fold).value.excerpt, text, fold).Some?
  }

  /** A statement is accepted exactly when each citation is found in its item's window, one of
      them asserts the text if its kind claims a fact, and it has the citations its kind needs. */
  lemma StatementAcceptedIff(s: Statement, items: seq<Item>, allow: bool, fold: Fold)
    ensures Publish(s, items, allow, fold).Success? <==>
      if s.conclusion == ModelKnowledge then allow && s.citations == []
      else
        && (forall j | 0 <= j < |s.citations| :: Ground(s.citations[j], items, fold).Success?)
        && (MustBeAsserted(s.conclusion) ==>
            exists j | 0 <= j < |s.citations| :: Asserts(s.citations[j], s.text, items, fold))
        && (s.conclusion == Inference ==> |s.citations| >= 2)
  {
    GroundAllIff(s.citations, items, fold);
    var grounded := GroundAll(s.citations, items, fold);
    if s.conclusion != ModelKnowledge && grounded.Success? {
      FirstAssertionIff(grounded.value, s.text, fold);
      if s.citations == [] {
        assert grounded.value == [];
      } else {
        GroundedOneByOne(s.citations, items, fold, 0);
      }
      forall j | 0 <= j < |s.citations|
        ensures Asserts(s.citations[j], s.text, items, fold) <==> Locate(grounded.value[j].excerpt, s.text, fold).Some?
      {
        GroundedOneByOne(s.citations, items, fold, j);
      }
    }
  }

  /** The answer is refused as a whole as soon as one statement is. */
  lemma {:induction false} AcceptedIff(kind: ResultKind, ss: seq<Statement>, items: seq<Item>, allow: bool, fold: Fold)
    ensures Validate(kind, ss, items, allow, fold).Success? <==>
            forall k | 0 <= k < |ss| :: Publish(ss[k], items, allow, fold).Success?
    decreases |ss|
  {
    if ss != [] {
      AcceptedIff(kind, ss[1..], items, allow, fold);
      assert forall k | 1 <= k < |ss| :: ss[k] == ss[1..][k - 1];
    }
  }

  /** Items chosen by assembleContext have valid windows, so all of this holds of its answers. */
  lemma AssembledWindowsAreValid(items: seq<Item>, raw: seq<RawEntry>, budget: int)
    requires Selects(items, Distinct(raw), budget)
    ensures ValidWindows(items)
    ensures forall i | 0 <= i < |items| :: Find(items, items[i].evidenceKey) == Some(Placed(items[i], i))
  {
    forall i | 0 <= i < |items|
      ensures items[i].excerptStart <= items[i].excerptEnd <= |items[i].content|
      ensures Find(items, items[i].evidenceKey) == Some(Placed(items[i], i))
    {
      assert MadeAt(items, Distinct(raw), budget, i);
      forall j | i < j < |items| ensures items[j].evidenceKey != items[i].evidenceKey {
        EvidenceKeysAreDistinct(items, Distinct(raw), budget, i, j);
      }
      MapGets(Placements(items), i);
    }
  }
}
