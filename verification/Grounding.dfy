/** Finding a quoted text inside a chunk, exactly or after normalisation, and mapping the match
    back to offsets of the chunk (locateGroundedText, normalizedCharacters in ask.ts). */
module Grounding {
  import opened Outcomes

  /** JavaScript strings are sequences of UTF-16 code units. */
  type CodeUnit = u: nat | u < 0x1_0000

  type Text = seq<CodeUnit>

  predicate High(u: CodeUnit) {
    0xD800 <= u < 0xDC00
  }

  predicate Low(u: CodeUnit) {
    0xDC00 <= u < 0xE000
  }

  /** The length of the code point a `for ... of` loop yields at `i`. */
  function PointLength(s: Text, i: nat): (n: nat)
    requires i < |s|
    ensures 1 <= n && i + n <= |s|
  {
    if High(s[i]) && i + 1 < |s| && Low(s[i + 1]) then 2 else 1
  }

  /** A kept character, itself a text, and the offset of the code point it came from. */
  datatype Kept = Kept(character: Text, sourceIndex: nat)

  /** NFKC, lower case and the letter-or-digit filter, for one code point: the characters kept. */
  type Fold = Text -> seq<Text>

  function KeptOf(characters: seq<Text>, i: nat): (kept: seq<Kept>)
    ensures |kept| == |characters|
    ensures forall k | 0 <= k < |kept| :: kept[k] == Kept(characters[k], i)
  {
    seq(|characters|, k requires 0 <= k < |characters| => Kept(characters[k], i))
  }

  function KeptAt(s: Text, i: nat, fold: Fold): seq<Kept>
    requires i < |s|
  {
    KeptOf(fold(s[i..i + PointLength(s, i)]), i)
  }

  /** The characters kept of the code points from `i` up to `j`. */
  function KeptRange(s: Text, i: nat, j: nat, fold: Fold): seq<Kept>
    decreases j - i
  {
    if i >= j || i >= |s| then [] else KeptAt(s, i, fold) + KeptRange(s, i + PointLength(s, i), j, fold)
  }

  function Normalized(s: Text, fold: Fold): seq<Kept> {
    KeptRange(s, 0, |s|, fold)
  }

  function Join(kept: seq<Kept>): Text {
    if kept == [] then [] else kept[0].character + Join(kept[1..])
  }

  predicate OccursAt(hay: Text, needle: Text, i: nat) {
    i + |needle| <= |hay| && hay[i..i + |needle|] == needle
  }

  predicate Contains(hay: Text, needle: Text) {
    exists i: nat :: i <= |hay| && OccursAt(hay, needle, i)
  }

  /** `hay.indexOf(needle, from)`. */
  function IndexFrom(hay: Text, needle: Text, from: nat): (r: Option<nat>)
    requires from <= |hay|
    ensures r.Some? ==> from <= r.value && OccursAt(hay, needle, r.value)
    ensures forall i: nat | from <= i && (r.Some? ==> i < r.value) :: !OccursAt(hay, needle, i)
    decreases |hay| - from
  {
    if OccursAt(hay, needle, from) then Some(from)
    else if from == |hay| then None
    else IndexFrom(hay, needle, from + 1)
  }

  datatype Span = Span(start: nat, end: nat, text: Text)

  /** The kept characters refer to code points of the text, in order. */
  predicate Ordered(content: Text, source: seq<Kept>) {
    forall a, b | 0 <= a <= b < |source| :: source[a].sourceIndex <= source[b].sourceIndex < |content|
  }

  /** A character array is indexed with an offset into the joined text, as the source does. */
  function SpanAt(content: Text, source: seq<Kept>, at: nat, size: nat): Option<Span>
    requires Ordered(content, source) && size > 0
  {
    if at + size - 1 >= |source| then None
    else
      var start := source[at].sourceIndex;
      var last := source[at + size - 1].sourceIndex;
      var end := last + PointLength(content, last);
      Some(Span(start, end, content[start..end]))
  }

  function FindIn(content: Text, source: seq<Kept>, target: Text): Option<Span>
    requires Ordered(content, source)
  {
    if |target| < 4 then None
    else
      match IndexFrom(Join(source), target, 0)
      case None => None
      case Some(at) => SpanAt(content, source, at, |target|)
  }

  function LocateNormalized(content: Text, requested: Text, fold: Fold): Option<Span> {
    NormalizedIsOrdered(content, fold);
    FindIn(content, Normalized(content, fold), Join(Normalized(requested, fold)))
  }

  function Locate(content: Text, requested: Text, fold: Fold): Option<Span> {
    match IndexFrom(content, requested, 0)
    case Some(exact) => Some(Span(exact, exact + |requested|, requested))
    case None => LocateNormalized(content, requested, fold)
  }

  lemma KeptStep(s: Text, i: nat, j: nat, fold: Fold)
    requires i < j <= |s|
    ensures KeptRange(s, i, j, fold) == KeptAt(s, i, fold) + KeptRange(s, i + PointLength(s, i), j, fold)
  {
  }

  lemma MovesOver(output: seq<Kept>, s: Text, i: nat, fold: Fold)
    requires i < |s|
    ensures output + KeptRange(s, i, |s|, fold)
            == (output + KeptAt(s, i, fold)) + KeptRange(s, i + PointLength(s, i), |s|, fold)
  {
    KeptStep(s, i, |s|, fold);
    Reassociates(output, KeptAt(s, i, fold), KeptRange(s, i + PointLength(s, i), |s|, fold));
  }

  lemma Reassociates<T>(a: seq<T>, b: seq<T>, c: seq<T>)
    ensures a + (b + c) == (a + b) + c
  {
  }

  /** normalizedCharacters, with its running offset. */
  method NormalizedCharacters(value: Text, fold: Fold) returns (output: seq<Kept>)
    ensures output == Normalized(value, fold)
  {
    output := [];
    var sourceIndex: nat := 0;
    while sourceIndex < |value|
      invariant sourceIndex <= |value|
      invariant output + KeptRange(value, sourceIndex, |value|, fold) == Normalized(value, fold)
    {
      MovesOver(output, value, sourceIndex, fold);
      output := output + KeptAt(value, sourceIndex, fold);
      sourceIndex := sourceIndex + PointLength(value, sourceIndex);
    }
  }

  // ---- where kept characters come from ----

  /** Offset `j` begins a code point (or ends the text) when the text is read from `i`. */
  predicate Reaches(s: Text, i: nat, j: nat)
    decreases |s| - i
  {
    i == j || (i < j && i < |s| && Reaches(s, i + PointLength(s, i), j))
  }

  lemma {:induction false} KeptComeFromPoints(s: Text, i: nat, j: nat, fold: Fold, k: nat)
    requires j <= |s| && k < |KeptRange(s, i, j, fold)|
    ensures var p := KeptRange(s, i, j, fold)[k].sourceIndex;
      i <= p < j && Reaches(s, i, p) && Reaches(s, i, p + PointLength(s, p))
    decreases j - i
  {
    var n := PointLength(s, i);
    var here := KeptAt(s, i, fold);
    if k < |here| {
      assert Reaches(s, i + n, i + n);
    } else {
      KeptComeFromPoints(s, i + n, j, fold, k - |here|);
    }
  }

  lemma {:induction false} KeptAreOrdered(s: Text, i: nat, j: nat, fold: Fold, a: nat, b: nat)
    requires j <= |s| && a <= b < |KeptRange(s, i, j, fold)|
    ensures KeptRange(s, i, j, fold)[a].sourceIndex <= KeptRange(s, i, j, fold)[b].sourceIndex < |s|
    decreases j - i
  {
    var n := PointLength(s, i);
    var here := KeptAt(s, i, fold);
    KeptComeFromPoints(s, i, j, fold, b);
    if a >= |here| {
      KeptAreOrdered(s, i + n, j, fold, a - |here|, b - |here|);
    }
  }

  lemma NormalizedIsOrdered(content: Text, fold: Fold)
    ensures Ordered(content, Normalized(content, fold))
  {
    forall a, b | 0 <= a <= b < |Normalized(content, fold)|
      ensures Normalized(content, fold)[a].sourceIndex <= Normalized(content, fold)[b].sourceIndex < |content|
    {
      KeptAreOrdered(content, 0, |content|, fold, a, b);
    }
  }

  lemma {:induction false} ReachesForward(s: Text, i: nat, j: nat)
    requires Reaches(s, i, j)
    ensures i <= j
    decreases |s| - i
  {
  }

  /** Two offsets reached from one start are reached from one another. */
  lemma {:induction false} ReachesBetween(s: Text, i: nat, m: nat, j: nat)
    requires Reaches(s, i, m) && Reaches(s, i, j) && m <= j
    ensures Reaches(s, m, j)
    decreases |s| - i
  {
    if i < m {
      ReachesForward(s, i + PointLength(s, i), m);
      ReachesBetween(s, i + PointLength(s, i), m, j);
    }
  }

  lemma {:induction false} KeptRangeSplits(s: Text, i: nat, m: nat, j: nat, fold: Fold)
    requires Reaches(s, i, m) && m <= j <= |s|
    ensures KeptRange(s, i, j, fold) == KeptRange(s, i, m, fold) + KeptRange(s, m, j, fold)
    decreases |s| - i
  {
    if i < m {
      var next := i + PointLength(s, i);
      ReachesForward(s, next, m);
      KeptRangeSplits(s, next, m, j, fold);
      KeptStep(s, i, j, fold);
      KeptStep(s, i, m, fold);
      Reassociates(KeptAt(s, i, fold), KeptRange(s, next, m, fold), KeptRange(s, m, j, fold));
    }
  }

  function Characters(kept: seq<Kept>): (c: seq<Text>)
    ensures |c| == |kept| && forall k | 0 <= k < |c| :: c[k] == kept[k].character
  {
    seq(|kept|, k requires 0 <= k < |kept| => kept[k].character)
  }

  lemma CharactersKept(characters: seq<Text>, i: nat)
    ensures Characters(KeptOf(characters, i)) == characters
  {
  }

  lemma PointReadsTheSame(s: Text, slice: Text, lo: nat, i: nat, hi: nat, fold: Fold)
    requires lo <= i < hi <= |s| && slice == s[lo..hi] && i + PointLength(s, i) <= hi
    ensures PointLength(slice, i - lo) == PointLength(s, i)
    ensures Characters(KeptAt(slice, i - lo, fold)) == Characters(KeptAt(s, i, fold))
  {
    var n := PointLength(s, i);
    assert slice[i - lo..i - lo + n] == s[i..i + n];
    CharactersKept(fold(s[i..i + n]), i);
    CharactersKept(fold(s[i..i + n]), i - lo);
  }

  lemma CharactersOfSum(a: seq<Kept>, b: seq<Kept>)
    ensures Characters(a + b) == Characters(a) + Characters(b)
  {
  }

  lemma KeptStepCharacters(s: Text, i: nat, j: nat, fold: Fold)
    requires i < j <= |s|
    ensures Characters(KeptRange(s, i, j, fold))
            == Characters(KeptAt(s, i, fold)) + Characters(KeptRange(s, i + PointLength(s, i), j, fold))
  {
    KeptStep(s, i, j, fold);
    CharactersOfSum(KeptAt(s, i, fold), KeptRange(s, i + PointLength(s, i), j, fold));
  }

  /** A slice between code points is read as it is in place. */
  lemma {:induction false} SliceReadsTheSame(s: Text, slice: Text, lo: nat, i: nat, hi: nat, fold: Fold)
    requires lo <= i <= hi <= |s| && slice == s[lo..hi] && Reaches(s, i, hi)
    ensures Characters(KeptRange(slice, i - lo, |slice|, fold)) == Characters(KeptRange(s, i, hi, fold))
    decreases hi - i
  {
    if i < hi {
      var next := i + PointLength(s, i);
      ReachesForward(s, next, hi);
      PointReadsTheSame(s, slice, lo, i, hi, fold);
      KeptStepCharacters(slice, i - lo, |slice|, fold);
      KeptStepCharacters(s, i, hi, fold);
      SliceReadsTheSame(s, slice, lo, next, hi, fold);
    }
  }

  // ---- what a located span is ----

  /** Every normalised character is a single code unit. */
  predicate SingleUnits(kept: seq<Kept>) {
    forall k | 0 <= k < |kept| :: |kept[k].character| == 1
  }

  lemma {:induction false} JoinOfSingles(kept: seq<Kept>)
    requires SingleUnits(kept)
    ensures |Join(kept)| == |kept|
    ensures forall k | 0 <= k < |kept| :: [Join(kept)[k]] == kept[k].character
  {
    if kept != [] {
      JoinOfSingles(kept[1..]);
    }
  }

  lemma {:induction false} JoinOfCharacters(a: seq<Kept>, b: seq<Kept>)
    requires Characters(a) == Characters(b)
    ensures Join(a) == Join(b)
  {
    if a != [] {
      assert Characters(a)[0] == a[0].character && Characters(b)[0] == b[0].character;
      assert |a| == |Characters(a)| == |b|;
      assert Characters(a[1..]) == Characters(a)[1..];
      assert Characters(b[1..]) == Characters(b)[1..];
      JoinOfCharacters(a[1..], b[1..]);
    }
  }

  lemma NotFoundMeans(hay: Text, needle: Text)
    ensures IndexFrom(hay, needle, 0).None? <==> !Contains(hay, needle)
  {
    if IndexFrom(hay, needle, 0).Some? {
      assert OccursAt(hay, needle, IndexFrom(hay, needle, 0).value);
    }
  }

  /** The span runs from the code point of entry `at` to the end of that of the last of `size`. */
  predicate EndsAt(content: Text, source: seq<Kept>, span: Span, at: nat, size: nat) {
    && 4 <= size && at + size <= |source|
    && span.start == source[at].sourceIndex <= source[at + size - 1].sourceIndex < |content|
    && span.end == source[at + size - 1].sourceIndex + PointLength(content, source[at + size - 1].sourceIndex)
    && span.start <= span.end <= |content| && span.text == content[span.start..span.end]
  }

  lemma MatchEnds(content: Text, requested: Text, fold: Fold)
    requires LocateNormalized(content, requested, fold).Some?
    ensures var source := Normalized(content, fold);
      var target := Join(Normalized(requested, fold));
      EndsAt(content, source, LocateNormalized(content, requested, fold).value,
             IndexFrom(Join(source), target, 0).value, |target|)
  {
    NormalizedIsOrdered(content, fold);
  }

  lemma EndsArePoints(content: Text, fold: Fold, span: Span, at: nat, size: nat)
    requires EndsAt(content, Normalized(content, fold), span, at, size)
    ensures Reaches(content, 0, span.start) && Reaches(content, 0, span.end)
  {
    KeptComeFromPoints(content, 0, |content|, fold, at);
    KeptComeFromPoints(content, 0, |content|, fold, at + size - 1);
  }

  lemma MatchIsBetweenPoints(content: Text, requested: Text, fold: Fold)
    requires LocateNormalized(content, requested, fold).Some?
    ensures var span := LocateNormalized(content, requested, fold).value;
      Reaches(content, 0, span.start) && Reaches(content, 0, span.end)
  {
    MatchEnds(content, requested, fold);
    EndsArePoints(content, fold, LocateNormalized(content, requested, fold).value,
                  IndexFrom(Join(Normalized(content, fold)), Join(Normalized(requested, fold)), 0).value,
                  |Join(Normalized(requested, fold))|);
  }

  /** A surrogate pair stands around the offset. */
  predicate Splits(s: Text, i: nat) {
    0 < i < |s| && High(s[i - 1]) && Low(s[i])
  }

  lemma {:induction false} ReachesUnlessSplit(s: Text, from: nat, i: nat)
    requires from <= i <= |s| && !Splits(s, from)
    ensures Reaches(s, from, i) <==> !Splits(s, i)
    decreases |s| - from
  {
    if from < i {
      var next := from + PointLength(s, from);
      if next <= i {
        ReachesUnlessSplit(s, next, i);
      }
    }
  }

  /** The offsets between code points are those that split no surrogate pair. */
  lemma BoundaryIff(s: Text, i: nat)
    requires i <= |s|
    ensures Reaches(s, 0, i) <==> !Splits(s, i)
  {
    ReachesUnlessSplit(s, 0, i);
  }

  /** The span begins and ends between code points. */
  predicate Between(content: Text, span: Span) {
    Reaches(content, 0, span.start) && Reaches(content, 0, span.end)
  }

  /** Whatever is located is the stated slice. Found by normalisation, it lies between code
      points; found as it stands, it is the request, and lies between code points exactly when
      neither of its ends splits a surrogate pair of the chunk. */
  lemma LocatedIsASlice(content: Text, requested: Text, fold: Fold)
    requires Locate(content, requested, fold).Some?
    ensures var span := Locate(content, requested, fold).value;
      && span.start <= span.end <= |content| && span.text == content[span.start..span.end]
      && if Contains(content, requested) then
           && span.text == requested
           && (Between(content, span) <==> !Splits(content, span.start) && !Splits(content, span.end))
         else Between(content, span)
  {
    NotFoundMeans(content, requested);
    if !Contains(content, requested) {
      MatchEnds(content, requested, fold);
      MatchIsBetweenPoints(content, requested, fold);
    } else {
      var span := Locate(content, requested, fold).value;
      BoundaryIff(content, span.start);
      BoundaryIff(content, span.end);
    }
  }

  /** The request does not begin or end with half of a pair. */
  predicate WholeRequest(requested: Text) {
    requested != [] ==> !Low(requested[0]) && !High(requested[|requested| - 1])
  }

  /** A request of whole code points is located between code points, however it is found. */
  lemma WholeRequestIsLocatedWhole(content: Text, requested: Text, fold: Fold)
    requires WholeRequest(requested) && Locate(content, requested, fold).Some?
    ensures Between(content, Locate(content, requested, fold).value)
  {
    LocatedIsASlice(content, requested, fold);
    NotFoundMeans(content, requested);
    if Contains(content, requested) {
      var at := Locate(content, requested, fold).value.start;
      var end := at + |requested|;
      assert content[at..end] == requested;
      if requested == [] {
        assert at == 0;
      } else {
        assert content[at] == requested[0] && content[end - 1] == requested[|requested| - 1];
      }
    }
  }

  /** For the request as it stands that is exact: it is located between code points in every chunk
      that contains it if and only if it does not begin or end with half of a pair. */
  lemma LocatedWholeIff(requested: Text, fold: Fold)
    ensures (forall content: Text | Contains(content, requested) ::
              Locate(content, requested, fold).Some? && Between(content, Locate(content, requested, fold).value))
            <==> WholeRequest(requested)
  {
    forall content: Text | Contains(content, requested)
      ensures Locate(content, requested, fold).Some?
      ensures WholeRequest(requested) ==> Between(content, Locate(content, requested, fold).value)
    {
      NotFoundMeans(content, requested);
      if WholeRequest(requested) {
        WholeRequestIsLocatedWhole(content, requested, fold);
      }
    }
    if !WholeRequest(requested) {
      var content := HalvedIn(requested);
      HalfRequestSplits(requested, fold);
    }
  }

  /** A chunk in which a request that begins or ends with half of a pair splits one. */
  function HalvedIn(requested: Text): Text
    requires !WholeRequest(requested)
  {
    if Low(requested[0]) then [0xD801] + requested else requested + [0xDC28]
  }

  lemma HalfRequestSplits(requested: Text, fold: Fold)
    requires !WholeRequest(requested)
    ensures var content := HalvedIn(requested);
      && Contains(content, requested) && Locate(content, requested, fold).Some?
      && !Between(content, Locate(content, requested, fold).value)
  {
    var content := HalvedIn(requested);
    var at: nat := if Low(requested[0]) then 1 else 0;
    assert content[at..at + |requested|] == requested;
    assert OccursAt(content, requested, at);
    if at == 1 {
      DiffersAt(content, requested, 0, 0);
    }
    assert IndexFrom(content, requested, 0) == Some(at);
    BoundaryIff(content, at);
    BoundaryIff(content, at + |requested|);
  }

  /** A lone low surrogate is found in the middle of a pair. */
  lemma LoneSurrogateSplitsAPair(content: Text, requested: Text, fold: Fold)
    requires content == [0xD801, 0xDC28] && requested == [0xDC28]
    ensures Locate(content, requested, fold) == Some(Span(1, 2, requested))
    ensures !Between(content, Span(1, 2, requested))
  {
    assert HalvedIn(requested) == content;
    HalfRequestSplits(requested, fold);
    DiffersAt(content, requested, 0, 0);
    assert OccursAt(content, requested, 1);
    BoundaryIff(content, 1);
  }

  lemma SpanSplits(content: Text, start: nat, end: nat, fold: Fold)
    requires Reaches(content, 0, start) && Reaches(content, 0, end) && start <= end <= |content|
    ensures Reaches(content, start, end)
    ensures KeptRange(content, 0, end, fold)
            == KeptRange(content, 0, start, fold) + KeptRange(content, start, end, fold)
    ensures Normalized(content, fold)
            == KeptRange(content, 0, start, fold) + KeptRange(content, start, end, fold)
               + KeptRange(content, end, |content|, fold)
  {
    ReachesBetween(content, 0, start, end);
    KeptRangeSplits(content, 0, start, end, fold);
    KeptRangeSplits(content, 0, end, |content|, fold);
  }

  lemma SpanCuts(content: Text, start: nat, end: nat, fold: Fold)
    requires Reaches(content, 0, start) && Reaches(content, 0, end) && start <= end <= |content|
    ensures CutAt(Normalized(content, fold), |KeptRange(content, 0, start, fold)|,
                  |KeptRange(content, 0, end, fold)|, start, end)
  {
    var before := KeptRange(content, 0, start, fold);
    var within := KeptRange(content, start, end, fold);
    var after := KeptRange(content, end, |content|, fold);
    SpanSplits(content, start, end, fold);
    forall k | 0 <= k < |before| ensures before[k].sourceIndex < start {
      KeptComeFromPoints(content, 0, start, fold, k);
    }
    forall k | 0 <= k < |within| ensures start <= within[k].sourceIndex < end {
      KeptComeFromPoints(content, start, end, fold, k);
    }
    forall k | 0 <= k < |after| ensures end <= after[k].sourceIndex {
      KeptComeFromPoints(content, end, |content|, fold, k);
    }
    CutOfParts(before, within, after, start, end);
  }

  lemma SliceJoins(content: Text, start: nat, end: nat, fold: Fold)
    requires Reaches(content, start, end) && start <= end <= |content|
    ensures Join(Normalized(content[start..end], fold)) == Join(KeptRange(content, start, end, fold))
  {
    SliceReadsTheSame(content, content[start..end], start, start, end, fold);
    JoinOfCharacters(Normalized(content[start..end], fold), KeptRange(content, start, end, fold));
  }

  lemma MiddlePart<T>(before: seq<T>, within: seq<T>, after: seq<T>)
    ensures (before + within + after)[|before|..|before| + |within|] == within
  {
  }

  /** The kept characters whose code points lie in a span between code points. */
  lemma SpanKeeps(content: Text, start: nat, end: nat, fold: Fold)
    requires Reaches(content, 0, start) && Reaches(content, 0, end) && start <= end <= |content|
    ensures var source := Normalized(content, fold);
      var a, b := |KeptRange(content, 0, start, fold)|, |KeptRange(content, 0, end, fold)|;
      CutAt(source, a, b, start, end) && Join(Normalized(content[start..end], fold)) == Join(source[a..b])
  {
    SpanCuts(content, start, end, fold);
    SpanSplits(content, start, end, fold);
    SliceJoins(content, start, end, fold);
    MiddlePart(KeptRange(content, 0, start, fold), KeptRange(content, start, end, fold),
               KeptRange(content, end, |content|, fold));
  }

  lemma CutOfParts(before: seq<Kept>, within: seq<Kept>, after: seq<Kept>, start: nat, end: nat)
    requires forall k | 0 <= k < |before| :: before[k].sourceIndex < start
    requires forall k | 0 <= k < |within| :: start <= within[k].sourceIndex < end
    requires forall k | 0 <= k < |after| :: end <= after[k].sourceIndex
    ensures CutAt(before + within + after, |before|, |before| + |within|, start, end)
  {
  }

  lemma {:induction false} JoinOfSum(a: seq<Kept>, b: seq<Kept>)
    ensures Join(a + b) == Join(a) + Join(b)
    decreases |a|
  {
    if a == [] {
      assert a + b == b;
    } else {
      assert (a + b)[1..] == a[1..] + b;
      JoinOfSum(a[1..], b);
    }
  }

  lemma JoinSlice(kept: seq<Kept>, a: nat, b: nat)
    requires SingleUnits(kept) && a <= b <= |kept|
    ensures |Join(kept)| == |kept| && Join(kept[a..b]) == Join(kept)[a..b]
  {
    JoinOfSingles(kept);
    JoinOfSingles(kept[a..b]);
    forall k | 0 <= k < b - a ensures Join(kept[a..b])[k] == Join(kept)[a + k] {
      assert [Join(kept[a..b])[k]] == kept[a..b][k].character == [Join(kept)[a + k]];
      assert [Join(kept[a..b])[k]][0] == [Join(kept)[a + k]][0];
    }
  }

  lemma MatchInPrefix(front: seq<Kept>, rest: seq<Kept>, target: Text, at: nat)
    requires SingleUnits(front) && |front| == at + |target| && OccursAt(Join(front + rest), target, at)
    ensures |Join(front)| == |front| && OccursAt(Join(front), target, at)
  {
    JoinOfSum(front, rest);
    JoinOfSingles(front);
    assert Join(front + rest)[at..at + |target|] == Join(front)[at..at + |target|];
  }

  lemma SliceInParts<T>(s: seq<T>, a: nat, m: nat, n: nat, b: nat)
    requires a <= m <= n <= b <= |s|
    ensures s[a..b] == s[a..m] + s[m..n] + s[n..b]
    ensures s == s[..n] + s[n..] && s[..n][m..n] == s[m..n]
  {
  }

  lemma SuffixJoins(front: seq<Kept>, part: seq<Kept>, at: nat)
    requires SingleUnits(front) && at <= |front| && part == front[at..|front|]
    ensures |Join(front)| == |front| && Join(part) == Join(front)[at..|front|]
  {
    JoinSlice(front, at, |front|);
  }

  /** The entries of a match are those at its offsets: only the characters up to its end need be
      single code units. */
  lemma MatchedEntries(source: seq<Kept>, front: seq<Kept>, part: seq<Kept>, target: Text, at: nat)
    requires at + |target| <= |source| && front == source[..at + |target|] && part == source[at..at + |target|]
    requires SingleUnits(front) && OccursAt(Join(source), target, at)
    ensures Join(part) == target
  {
    var end := at + |target|;
    SliceInParts(source, at, at, end, end);
    MatchInPrefix(front, source[end..], target, at);
    SuffixJoins(front, part, at);
  }

  lemma Surrounded(x: seq<Kept>, m: seq<Kept>, y: seq<Kept>)
    ensures Contains(Join(x + m + y), Join(m))
  {
    JoinOfSum(x + m, y);
    JoinOfSum(x, m);
    var whole := Join(x) + Join(m) + Join(y);
    assert whole[|Join(x)|..|Join(x)| + |Join(m)|] == Join(m);
    assert OccursAt(whole, Join(m), |Join(x)|);
  }

  lemma MatchWithin(source: seq<Kept>, within: seq<Kept>, target: Text, at: nat, a: nat, b: nat)
    requires a <= at && at + |target| <= b <= |source| && within == source[a..b]
    requires SingleUnits(source[..at + |target|]) && OccursAt(Join(source), target, at)
    ensures Contains(Join(within), target)
  {
    var end := at + |target|;
    var x, m, y := source[a..at], source[at..end], source[end..b];
    SliceInParts(source, a, at, end, b);
    MatchedEntries(source, source[..end], m, target, at);
    Surrounded(x, m, y);
  }

  /** The kept characters of the span enclose those of the match. */
  lemma SpanEncloses(content: Text, requested: Text, fold: Fold)
    requires LocateNormalized(content, requested, fold).Some?
    ensures var span := LocateNormalized(content, requested, fold).value;
      var at := IndexFrom(Join(Normalized(content, fold)), Join(Normalized(requested, fold)), 0).value;
      && |KeptRange(content, 0, span.start, fold)| <= at
      && at + |Join(Normalized(requested, fold))| <= |KeptRange(content, 0, span.end, fold)|
  {
    MatchEnds(content, requested, fold);
    MatchIsBetweenPoints(content, requested, fold);
    var span := LocateNormalized(content, requested, fold).value;
    SpanKeeps(content, span.start, span.end, fold);
  }

  /** The kept characters of the chunk are single code units up to the end of the match. */
  predicate SingleUnitsToMatch(content: Text, requested: Text, fold: Fold) {
    var source, target := Normalized(content, fold), Join(Normalized(requested, fold));
    match IndexFrom(Join(source), target, 0)
    case None => true
    case Some(at) => at + |target| <= |source| ==> SingleUnits(source[..at + |target|])
  }

  /** When each normalised character of the chunk up to the end of the match is one code unit, a
      span found by normalisation really contains the normalised request. */
  lemma LocatedContainsRequest(content: Text, requested: Text, fold: Fold)
    requires SingleUnitsToMatch(content, requested, fold)
    requires LocateNormalized(content, requested, fold).Some?
    ensures Contains(Join(Normalized(LocateNormalized(content, requested, fold).value.text, fold)),
                     Join(Normalized(requested, fold)))
  {
    var source := Normalized(content, fold);
    var target := Join(Normalized(requested, fold));
    var span := LocateNormalized(content, requested, fold).value;
    var at := IndexFrom(Join(source), target, 0).value;
    MatchEnds(content, requested, fold);
    MatchIsBetweenPoints(content, requested, fold);
    SpanEncloses(content, requested, fold);
    SpanKeeps(content, span.start, span.end, fold);
    var a, b := |KeptRange(content, 0, span.start, fold)|, |KeptRange(content, 0, span.end, fold)|;
    MatchWithin(source, source[a..b], target, at, a, b);
  }

  predicate NeverExpands(fold: Fold, s: Text) {
    forall i | 0 <= i < |s| :: |fold(s[i..i + PointLength(s, i)])| <= 1
  }

  lemma {:induction false} UnexpandedAreStrictlyOrdered(s: Text, i: nat, j: nat, fold: Fold, a: nat, b: nat)
    requires NeverExpands(fold, s)
    requires j <= |s| && a < b < |KeptRange(s, i, j, fold)|
    ensures KeptRange(s, i, j, fold)[a].sourceIndex < KeptRange(s, i, j, fold)[b].sourceIndex
    decreases j - i
  {
    var n := PointLength(s, i);
    var here := KeptAt(s, i, fold);
    assert |here| <= 1;
    if a < |here| {
      KeptComeFromPoints(s, i + n, j, fold, b - |here|);
    } else {
      UnexpandedAreStrictlyOrdered(s, i + n, j, fold, a - |here|, b - |here|);
    }
  }

  /** The entries of a normalised text from `a` to `b` are those of code points from p to q. */
  predicate CutAt(source: seq<Kept>, a: nat, b: nat, start: nat, end: nat) {
    && a <= b <= |source|
    && (forall k | 0 <= k < a :: source[k].sourceIndex < start)
    && (forall k | a <= k < b :: start <= source[k].sourceIndex < end)
    && (forall k | b <= k < |source| :: end <= source[k].sourceIndex)
  }

  lemma TightCut(content: Text, fold: Fold, at: nat, size: nat, a: nat, b: nat, end: nat)
    requires NeverExpands(fold, content) && size > 0
    requires var source := Normalized(content, fold);
      && at + size <= |source|
      && CutAt(source, a, b, source[at].sourceIndex, end)
      && source[at + size - 1].sourceIndex < |content|
      && end == source[at + size - 1].sourceIndex + PointLength(content, source[at + size - 1].sourceIndex)
    ensures a == at && b == at + size
  {
    var source := Normalized(content, fold);
    if a < at {
      UnexpandedAreStrictlyOrdered(content, 0, |content|, fold, a, at);
    }
    if at + size < b {
      var p, q := source[at + size - 1].sourceIndex, source[at + size].sourceIndex;
      UnexpandedAreStrictlyOrdered(content, 0, |content|, fold, at + size - 1, at + size);
      KeptComeFromPoints(content, 0, |content|, fold, at + size - 1);
      KeptComeFromPoints(content, 0, |content|, fold, at + size);
      PointsDoNotOverlap(content, p, q);
    }
  }

  lemma SpanIsTight(content: Text, fold: Fold, at: nat, size: nat, start: nat, end: nat)
    requires NeverExpands(fold, content) && size > 0
    requires at + size <= |Normalized(content, fold)|
    requires Normalized(content, fold)[at].sourceIndex == start
    requires var last := Normalized(content, fold)[at + size - 1].sourceIndex;
      last < |content| && end == last + PointLength(content, last)
    requires Reaches(content, 0, start) && Reaches(content, 0, end) && start <= end <= |content|
    ensures |KeptRange(content, 0, start, fold)| == at
    ensures |KeptRange(content, 0, end, fold)| == at + size
  {
    SpanKeeps(content, start, end, fold);
    TightCut(content, fold, at, size, |KeptRange(content, 0, start, fold)|, |KeptRange(content, 0, end, fold)|, end);
  }

  lemma TightSpanJoins(content: Text, fold: Fold, span: Span, at: nat, size: nat)
    requires NeverExpands(fold, content) && EndsAt(content, Normalized(content, fold), span, at, size)
    ensures Join(Normalized(span.text, fold)) == Join(Normalized(content, fold)[at..at + size])
  {
    EndsArePoints(content, fold, span, at, size);
    SpanIsTight(content, fold, at, size, span.start, span.end);
    SpanKeeps(content, span.start, span.end, fold);
  }

  lemma MatchJoins(content: Text, requested: Text, fold: Fold)
    requires SingleUnitsToMatch(content, requested, fold)
    requires LocateNormalized(content, requested, fold).Some?
    ensures var source, target := Normalized(content, fold), Join(Normalized(requested, fold));
      var at := IndexFrom(Join(source), target, 0).value;
      at + |target| <= |source| && Join(source[at..at + |target|]) == target
  {
    MatchEnds(content, requested, fold);
    var source, target := Normalized(content, fold), Join(Normalized(requested, fold));
    var at := IndexFrom(Join(source), target, 0).value;
    MatchedEntries(source, source[..at + |target|], source[at..at + |target|], target, at);
  }

  lemma LocatedIsTight(content: Text, requested: Text, fold: Fold)
    requires NeverExpands(fold, content)
    requires LocateNormalized(content, requested, fold).Some?
    ensures var source, target := Normalized(content, fold), Join(Normalized(requested, fold));
      var at := IndexFrom(Join(source), target, 0).value;
      && at + |target| <= |source|
      && Join(Normalized(LocateNormalized(content, requested, fold).value.text, fold)) == Join(source[at..at + |target|])
  {
    MatchEnds(content, requested, fold);
    TightSpanJoins(content, fold, LocateNormalized(content, requested, fold).value,
                   IndexFrom(Join(Normalized(content, fold)), Join(Normalized(requested, fold)), 0).value,
                   |Join(Normalized(requested, fold))|);
  }

  /** And when moreover no code point expands, the span normalises to just the request. */
  lemma LocatedEqualsRequest(content: Text, requested: Text, fold: Fold)
    requires SingleUnitsToMatch(content, requested, fold) && NeverExpands(fold, content)
    requires LocateNormalized(content, requested, fold).Some?
    ensures Join(Normalized(LocateNormalized(content, requested, fold).value.text, fold))
            == Join(Normalized(requested, fold))
  {
    MatchJoins(content, requested, fold);
    LocatedIsTight(content, requested, fold);
  }

  /** A later code point begins where the earlier one has ended, or after. */
  lemma PointsDoNotOverlap(s: Text, p: nat, q: nat)
    requires Reaches(s, 0, p) && Reaches(s, 0, q) && p < q && p < |s|
    ensures p + PointLength(s, p) <= q
  {
    ReachesBetween(s, 0, p, q);
    ReachesForward(s, p + PointLength(s, p), q);
  }

  // ---- when array indices and string offsets agree ----

  predicate NonEmptyCharacters(kept: seq<Kept>) {
    forall k | 0 <= k < |kept| :: kept[k].character != []
  }

  lemma {:induction false} JoinIsLonger(kept: seq<Kept>)
    requires NonEmptyCharacters(kept)
    ensures |Join(kept)| >= |kept|
    ensures |Join(kept)| == |kept| <==> SingleUnits(kept)
  {
    if kept != [] {
      JoinIsLonger(kept[1..]);
      assert SingleUnits(kept) <==> |kept[0].character| == 1 && SingleUnits(kept[1..]);
    }
  }

  /** The character with index `n` begins at string offset `n` of the joined text, which is what
      the indexing relies on, exactly when every character before it is one code unit. */
  lemma OffsetsAgreeIff(kept: seq<Kept>, n: nat)
    requires NonEmptyCharacters(kept) && n <= |kept|
    ensures |Join(kept[..n])| == n <==> SingleUnits(kept[..n])
  {
    JoinIsLonger(kept[..n]);
  }

  /** Lower-casing ASCII letters and keeping everything else. */
  function LowerAscii(point: Text): seq<Text> {
    if |point| == 1 && 65 <= point[0] <= 90 then [[point[0] + 32]] else [point]
  }

  lemma NormalizeOne(s: Text, i: nat)
    requires i < |s| && !High(s[i])
    ensures KeptRange(s, i, |s|, LowerAscii)
            == [Kept(LowerAscii([s[i]])[0], i)] + KeptRange(s, i + 1, |s|, LowerAscii)
  {
    assert s[i..i + 1] == [s[i]];
    assert KeptAt(s, i, LowerAscii) == [Kept(LowerAscii([s[i]])[0], i)];
  }

  /** The kept characters of a text without surrogates from `i` on. */
  predicate LoweredFrom(s: Text, i: nat, kept: seq<Kept>) {
    i <= |s| && |kept| == |s| - i
    && forall k | i <= k < |s| :: kept[k - i] == Kept(LowerAscii([s[k]])[0], k)
  }

  lemma LoweredOneMore(s: Text, i: nat, rest: seq<Kept>)
    requires i < |s| && LoweredFrom(s, i + 1, rest)
    ensures LoweredFrom(s, i, [Kept(LowerAscii([s[i]])[0], i)] + rest)
  {
    var whole := [Kept(LowerAscii([s[i]])[0], i)] + rest;
    forall k | i < k < |s| ensures whole[k - i] == Kept(LowerAscii([s[k]])[0], k) {
      assert whole[k - i] == rest[k - (i + 1)];
    }
  }

  /** A text without surrogates is lower-cased unit by unit. */
  lemma {:induction false} PlainNormalizes(s: Text, i: nat)
    requires i <= |s| && forall k | i <= k < |s| :: !High(s[k])
    ensures LoweredFrom(s, i, KeptRange(s, i, |s|, LowerAscii))
    decreases |s| - i
  {
    if i < |s| {
      NormalizeOne(s, i);
      PlainNormalizes(s, i + 1);
      LoweredOneMore(s, i, KeptRange(s, i + 1, |s|, LowerAscii));
    }
  }

  lemma DiffersAt(hay: Text, needle: Text, i: nat, k: nat)
    requires k < |needle| && i + k < |hay| && hay[i + k] != needle[k]
    ensures !OccursAt(hay, needle, i)
  {
    if i + |needle| <= |hay| {
      assert hay[i..i + |needle|][k] == hay[i + k];
    }
  }

  /** A surrogate pair, then "abcde"; and "ABCD". */
  function Astral(): (s: Text)
    ensures s == [0xD801, 0xDC28, 97, 98, 99, 100, 101]
  {
    [0xD801, 0xDC28, 97, 98, 99, 100, 101]
  }

  lemma LoweredJoins(s: Text, i: nat, kept: seq<Kept>)
    requires LoweredFrom(s, i, kept)
    ensures |Join(kept)| == |s| - i
    ensures forall k | i <= k < |s| :: Join(kept)[k - i] == LowerAscii([s[k]])[0][0]
  {
    forall j | 0 <= j < |kept| ensures |kept[j].character| == 1 {
      assert kept[(j + i) - i] == Kept(LowerAscii([s[j + i]])[0], j + i);
    }
    JoinOfSingles(kept);
    forall k | i <= k < |s| ensures Join(kept)[k - i] == LowerAscii([s[k]])[0][0] {
      assert [Join(kept)[k - i]] == kept[k - i].character == LowerAscii([s[k]])[0];
      assert [Join(kept)[k - i]][0] == LowerAscii([s[k]])[0][0];
    }
  }

  lemma PlainJoins(s: Text, i: nat)
    requires i <= |s| && forall k | i <= k < |s| :: !High(s[k])
    ensures |Join(KeptRange(s, i, |s|, LowerAscii))| == |s| - i
    ensures forall k | i <= k < |s| ::
      Join(KeptRange(s, i, |s|, LowerAscii))[k - i] == LowerAscii([s[k]])[0][0]
  {
    PlainNormalizes(s, i);
    LoweredJoins(s, i, KeptRange(s, i, |s|, LowerAscii));
  }

  lemma PairBegins(s: Text)
    requires |s| >= 2 && High(s[0]) && Low(s[1])
    ensures Normalized(s, LowerAscii) == [Kept(s[0..2], 0)] + KeptRange(s, 2, |s|, LowerAscii)
  {
    KeptStep(s, 0, |s|, LowerAscii);
  }

  lemma AstralTail(s: Text, tail: seq<Kept>)
    requires s == Astral() && LoweredFrom(s, 2, tail)
    ensures |tail| == 5 && forall k | 0 <= k < 5 :: tail[k] == Kept([s[k + 2]], k + 2)
    ensures Join(tail) == s[2..]
  {
    forall k | 0 <= k < 5 ensures tail[k] == Kept([s[k + 2]], k + 2) {
      assert tail[(k + 2) - 2] == Kept(LowerAscii([s[k + 2]])[0], k + 2);
    }
    LoweredJoins(s, 2, tail);
    forall k | 0 <= k < 5 ensures Join(tail)[k] == s[2..][k] {
      assert Join(tail)[(k + 2) - 2] == LowerAscii([s[k + 2]])[0][0];
    }
  }

  lemma AstralWhole(s: Text, source: seq<Kept>, tail: seq<Kept>)
    requires s == Astral() && LoweredFrom(s, 2, tail) && source == [Kept(s[0..2], 0)] + tail
    ensures |source| == 6 && Join(source) == s
    ensures forall k | 1 <= k < 6 :: source[k] == Kept([s[k + 1]], k + 1)
  {
    AstralTail(s, tail);
    PrefixedJoin(Kept(s[0..2], 0), tail);
    forall k | 1 <= k < 6 ensures source[k] == Kept([s[k + 1]], k + 1) {
      assert source[k] == tail[k - 1];
    }
  }

  lemma AstralNormalizes(s: Text)
    requires s == Astral()
    ensures var source := Normalized(s, LowerAscii);
      && |source| == 6 && Join(source) == s
      && (forall k | 1 <= k < 6 :: source[k] == Kept([s[k + 1]], k + 1))
  {
    PairBegins(s);
    PlainNormalizes(s, 2);
    AstralWhole(s, Normalized(s, LowerAscii), KeptRange(s, 2, |s|, LowerAscii));
  }

  lemma PrefixedJoin(first: Kept, rest: seq<Kept>)
    ensures Join([first] + rest) == first.character + Join(rest)
  {
    assert ([first] + rest)[1..] == rest;
  }

  lemma AstralMatch(s: Text)
    requires s == Astral()
    ensures IndexFrom(s, [97, 98, 99, 100], 0) == Some(2)
  {
    var target: Text := [97, 98, 99, 100];
    DiffersAt(s, target, 0, 0);
    DiffersAt(s, target, 1, 0);
    assert s[2..6] == target;
    assert OccursAt(s, target, 2);
  }

  lemma AstralIsNotShouted(s: Text, shouted: Text)
    requires s == Astral() && shouted == [65, 66, 67, 68]
    ensures !Contains(s, shouted)
  {
    forall i: nat | i <= |s| ensures !OccursAt(s, shouted, i) {
      if i + 4 <= 7 {
        DiffersAt(s, shouted, i, 0);
      }
    }
  }

  lemma AstralFinds(content: Text, source: seq<Kept>)
    requires content == Astral()
    requires Ordered(content, source) && |source| == 6
    requires forall k | 1 <= k < 6 :: source[k] == Kept([content[k + 1]], k + 1)
    ensures SpanAt(content, source, 2, 4) == Some(Span(3, 7, [98, 99, 100, 101]))
  {
    assert content[3..7] == [98, 99, 100, 101];
  }

  /** One letter outside the Basic Multilingual Plane before the match shifts the span: asked
      for "ABCD" in a chunk reading U+10428 then "abcde", the locator publishes "bcde". */
  lemma AstralLetterShiftsTheSpan(content: Text, shouted: Text)
    requires content == Astral() && shouted == [65, 66, 67, 68]
    ensures Locate(content, shouted, LowerAscii) == Some(Span(3, 7, [98, 99, 100, 101]))
  {
    AstralNormalizes(content);
    NormalizedIsOrdered(content, LowerAscii);
    PlainJoins(shouted, 0);
    var target := Join(Normalized(shouted, LowerAscii));
    forall k | 0 <= k < 4 ensures target[k] == 97 + k {
      assert target[k - 0] == LowerAscii([shouted[k]])[0][0];
    }
    assert target == [97, 98, 99, 100];
    AstralMatch(content);
    AstralFinds(content, Normalized(content, LowerAscii));
    AstralIsNotShouted(content, shouted);
    NotFoundMeans(content, shouted);
  }

  // ---- when a text is found at all ----

  /** The first occurrence begins early enough for an array of this size to be indexed with its offsets. */
  predicate OccursWithin(hay: Text, needle: Text, size: nat) {
    exists at: nat :: at <= |hay| && OccursAt(hay, needle, at) && at + |needle| <= size
      && forall i: nat | i < at :: !OccursAt(hay, needle, i)
  }

  lemma IndexIsFirst(hay: Text, needle: Text, size: nat)
    ensures OccursWithin(hay, needle, size) <==>
            IndexFrom(hay, needle, 0).Some? && IndexFrom(hay, needle, 0).value + |needle| <= size
  {
    if OccursWithin(hay, needle, size) {
      var at: nat :| at <= |hay| && OccursAt(hay, needle, at) && at + |needle| <= size
        && forall i: nat | i < at :: !OccursAt(hay, needle, i);
      assert IndexFrom(hay, needle, 0) == Some(at);
    }
  }

  /** A text is found exactly if the chunk contains it as it stands, or if four or more units are left of it
      after normalisation and these first occur in the normalised chunk no further on than the chunk has
      characters. */
  lemma {:induction false} LocatedIff(content: Text, requested: Text, fold: Fold)
    ensures var source, target := Normalized(content, fold), Join(Normalized(requested, fold));
      Locate(content, requested, fold).Some? <==>
      Contains(content, requested) || (|target| >= 4 && OccursWithin(Join(source), target, |source|))
  {
    NormalizedIsOrdered(content, fold);
    NotFoundMeans(content, requested);
    IndexIsFirst(Join(Normalized(content, fold)), Join(Normalized(requested, fold)), |Normalized(content, fold)|);
  }

  /** Where every normalised character of the chunk is one unit, occurring is enough. */
  lemma {:induction false} SingleUnitsAreLocatedIff(content: Text, requested: Text, fold: Fold)
    requires SingleUnits(Normalized(content, fold))
    ensures var target := Join(Normalized(requested, fold));
      Locate(content, requested, fold).Some? <==>
      Contains(content, requested) || (|target| >= 4 && Contains(Join(Normalized(content, fold)), target))
  {
    var source, target := Normalized(content, fold), Join(Normalized(requested, fold));
    LocatedIff(content, requested, fold);
    JoinOfSingles(source);
    NotFoundMeans(Join(source), target);
    IndexIsFirst(Join(source), target, |source|);
  }

  /** Otherwise it is not: asked for "BCDE" in the chunk of U+10428 and then "abcde", the locator finds
      nothing, although the normalised chunk ends in "bcde". */
  lemma AstralLetterHidesTheMatch(content: Text, shouted: Text)
    requires content == Astral() && shouted == [66, 67, 68, 69]
    ensures Locate(content, shouted, LowerAscii).None?
    ensures |Join(Normalized(shouted, LowerAscii))| == 4
    ensures Contains(Join(Normalized(content, LowerAscii)), Join(Normalized(shouted, LowerAscii)))
  {
    AstralNormalizes(content);
    NormalizedIsOrdered(content, LowerAscii);
    PlainJoins(shouted, 0);
    var target := Join(Normalized(shouted, LowerAscii));
    forall k | 0 <= k < 4 ensures target[k] == 98 + k {
      assert target[k - 0] == LowerAscii([shouted[k]])[0][0];
    }
    assert target == [98, 99, 100, 101];
    LateAstralMatch(content);
    LateIsNotShouted(content, shouted);
    NotFoundMeans(content, shouted);
  }

  lemma LateAstralMatch(s: Text)
    requires s == Astral()
    ensures IndexFrom(s, [98, 99, 100, 101], 0) == Some(3)
  {
    var target: Text := [98, 99, 100, 101];
    DiffersAt(s, target, 0, 0);
    DiffersAt(s, target, 1, 0);
    DiffersAt(s, target, 2, 0);
    assert s[3..7] == target;
    assert OccursAt(s, target, 3);
  }

  lemma LateIsNotShouted(s: Text, shouted: Text)
    requires s == Astral() && shouted == [66, 67, 68, 69]
    ensures !Contains(s, shouted)
  {
    forall i: nat | i <= |s| ensures !OccursAt(s, shouted, i) {
      if i + 4 <= 7 {
        DiffersAt(s, shouted, i, 0);
      }
    }
  }
}
