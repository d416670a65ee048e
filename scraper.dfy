/** The scraper's post-processing: the pages of all sections are parsed,
    listings that occur on several pages are de-duplicated, and the
    2.00 mega-listing is cut into its subsections A to E. Fetching pages
    and extracting their text are outside this model: each page arrives as
    its extracted text, or as nothing when it could not be fetched. */
module Scraper {
  import opened Wrappers
  import opened Text
  import opened Sections
  import Config

  // ---------------------------------------------------------------------
  // Subsection headers of listing 2.00

  const HowPrefix: string := "How do we "
  const LossPrefix: string := "Loss of "

  /** The end of the match at `p` of
      `^([B-E])\.\s+(How do we .+|Loss of .+)` in multi-line mode, if any. */
  function SubsectionHeaderEnd(s: string, p: nat): (r: Option<nat>)
    ensures r.Some? ==> LineStart(s, p) && p + 1 < |s| && 'B' <= s[p] <= 'E' && s[p + 1] == '.' && p < r.value <= |s|
  {
    if LineStart(s, p) && p + 2 <= |s| && 'B' <= s[p] <= 'E' && s[p + 1] == '.' then
      var q := SpaceRunEnd(s, p + 2);
      if q == p + 2 then None
      else if StartsAt(s, q, HowPrefix) && q + |HowPrefix| < |s| && s[q + |HowPrefix|] != '\n' then
        Some(LineEnd(s, q + |HowPrefix|))
      else if StartsAt(s, q, LossPrefix) && q + |LossPrefix| < |s| && s[q + |LossPrefix|] != '\n' then
        Some(LineEnd(s, q + |LossPrefix|))
      else None
    else None
  }

  /** The start positions of `subsection_pattern.finditer(text)` from
      `from` on. */
  function SubsectionStarts(s: string, from: nat): seq<nat>
    decreases |s| - from
  {
    if from >= |s| then []
    else match SubsectionHeaderEnd(s, from)
      case Some(e) => [from] + SubsectionStarts(s, e)
      case None => SubsectionStarts(s, from + 1)
  }

  /** Each reported start is a header, at or after `from`. */
  lemma {:induction false} SubsectionStartsMatch(s: string, from: nat)
    ensures forall p :: p in SubsectionStarts(s, from) ==> from <= p && SubsectionHeaderEnd(s, p).Some?
    decreases |s| - from
  {
    if from < |s| {
      match SubsectionHeaderEnd(s, from)
      case Some(e) =>
        SubsectionStartsMatch(s, e);
        assert SubsectionStarts(s, from) == [from] + SubsectionStarts(s, e);
      case None =>
        SubsectionStartsMatch(s, from + 1);
        assert SubsectionStarts(s, from) == SubsectionStarts(s, from + 1);
    }
  }

  /** Increasing positions below `n`. */
  predicate Increasing(starts: seq<nat>, n: nat) {
    && (forall i :: 0 <= i < |starts| ==> starts[i] < n)
    && (forall i, j :: 0 <= i < j < |starts| ==> starts[i] < starts[j])
  }

  /** The reported starts increase and lie inside the text. */
  lemma {:induction false} SubsectionStartsIncrease(s: string, from: nat)
    ensures Increasing(SubsectionStarts(s, from), |s|)
    decreases |s| - from
  {
    if from < |s| {
      var ps := SubsectionStarts(s, from);
      match SubsectionHeaderEnd(s, from)
      case Some(e) =>
        var rest := SubsectionStarts(s, e);
        SubsectionStartsIncrease(s, e);
        SubsectionStartsMatch(s, e);
        assert ps == [from] + rest;
        forall i, j | 0 <= i < j < |ps|
          ensures ps[i] < ps[j]
        {
          assert ps[j] == rest[j - 1] && rest[j - 1] in rest;
          if i > 0 {
            assert ps[i] == rest[i - 1];
          }
        }
      case None =>
        SubsectionStartsIncrease(s, from + 1);
        assert ps == SubsectionStarts(s, from + 1);
    }
  }

  // ---------------------------------------------------------------------
  // Boundaries and subsection documents

  /** A subsection's letter and its span in the text. */
  datatype Boundary = Boundary(letter: char, start: nat, end: nat)

  /** Section A runs from the start to the first header; each header's
      section runs to the next header, or to the end. */
  function Boundaries(s: string, starts: seq<nat>): (bs: seq<Boundary>)
    requires starts != [] && Increasing(starts, |s|)
    ensures |bs| == |starts| + 1
  {
    [Boundary('A', 0, starts[0])]
    + seq(|starts|, i requires 0 <= i < |starts| =>
        Boundary(s[starts[i]], starts[i], if i + 1 < |starts| then starts[i + 1] else |s|))
  }

  /** Spans inside the text, each with a letter from A to E. */
  predicate ValidBoundaries(s: string, bs: seq<Boundary>) {
    forall k :: 0 <= k < |bs| ==> bs[k].start <= bs[k].end <= |s| && 'A' <= bs[k].letter <= 'E'
  }

  lemma BoundariesValid(s: string, starts: seq<nat>)
    requires starts != [] && Increasing(starts, |s|)
    requires forall p :: p in starts ==> 'B' <= s[p] <= 'E'
    ensures ValidBoundaries(s, Boundaries(s, starts))
  {
    var bs := Boundaries(s, starts);
    forall k | 0 <= k < |bs|
      ensures bs[k].start <= bs[k].end <= |s| && 'A' <= bs[k].letter <= 'E'
    {
      if k > 0 {
        assert starts[k - 1] in starts;
      }
    }
  }

  /** `topic_map` */
  function TopicOf(letter: char): string
    requires 'A' <= letter <= 'E'
  {
    match letter
    case 'A' => "visual_disorders"
    case 'B' => "hearing_loss"
    case 'C' => "vestibular"
    case 'D' => "speech"
    case _ => "general"
  }

  /** `topic_titles` */
  function TopicTitle(letter: char): string
    requires 'A' <= letter <= 'E'
  {
    match letter
    case 'A' => "Visual Disorders Evaluation"
    case 'B' => "Hearing Loss Evaluation"
    case 'C' => "Vestibular Function Evaluation"
    case 'D' => "Speech Loss Evaluation"
    case _ => "General Evaluation Guidelines"
  }

  /** The record for subsection `letter` of the 2.00 listing `l`, whose
      stripped text is `sub`. */
  function SubsectionDoc(l: Listing, letter: char, sub: string): Listing
    requires 'A' <= letter <= 'E'
  {
    Listing("2.00_" + [letter], "Section 2.00" + [letter] + " - " + TopicTitle(letter),
            l.bodySystem, l.sectionNumber, sub, Summarize(sub), l.sourceUrl,
            Some([letter]), Some(TopicOf(letter)))
  }

  /** One record per boundary whose stripped text is not empty, in
      boundary order. */
  function SubsectionDocs(l: Listing, bs: seq<Boundary>): seq<Listing>
    requires ValidBoundaries(l.fullText, bs)
    decreases |bs|
  {
    if bs == [] then []
    else
      var b := bs[|bs| - 1];
      var sub := Strip(l.fullText[b.start..b.end]);
      SubsectionDocs(l, bs[..|bs| - 1]) + (if sub == [] then [] else [SubsectionDoc(l, b.letter, sub)])
  }

  /** What `split_section_2_listing` makes of one listing. */
  function SplitOne(l: Listing): seq<Listing> {
    if l.listingNumber != "2.00" then [l]
    else
      var starts := SubsectionStarts(l.fullText, 0);
      if starts == [] then [l]
      else
        SubsectionStartsIncrease(l.fullText, 0);
        SubsectionStartsMatch(l.fullText, 0);
        BoundariesValid(l.fullText, starts);
        SubsectionDocs(l, Boundaries(l.fullText, starts))
  }

  /** Each listing replaced by what `f` makes of it, in order. */
  function FlatMap(f: Listing -> seq<Listing>, ls: seq<Listing>): seq<Listing>
    decreases |ls|
  {
    if ls == [] then [] else FlatMap(f, ls[..|ls| - 1]) + f(ls[|ls| - 1])
  }

  /** What `split_section_2_listing` returns. */
  function SplitAll(ls: seq<Listing>): seq<Listing> {
    FlatMap(SplitOne, ls)
  }

  method SplitSection2Listing(listings: seq<Listing>) returns (result: seq<Listing>)
    ensures result == SplitAll(listings)
  {
    result := [];
    for i := 0 to |listings|
      invariant result == SplitAll(listings[..i])
    {
      assert listings[..i + 1][..i] == listings[..i];
      var listing := listings[i];
      if listing.listingNumber != "2.00" {
        result := result + [listing];
        continue;
      }
      var text := listing.fullText;
      var matches := SubsectionStarts(text, 0);
      if matches == [] {
        result := result + [listing];
        continue;
      }
      SubsectionStartsIncrease(text, 0);
      SubsectionStartsMatch(text, 0);
      var boundaries := BuildBoundaries(text, matches);
      BoundariesValid(text, matches);
      var docs := EmitSubsections(listing, boundaries);
      result := result + docs;
    }
    assert listings[..|listings|] == listings;
  }

  /** The list of `(letter, start, end)` triples. */
  method BuildBoundaries(text: string, matches: seq<nat>) returns (boundaries: seq<Boundary>)
    requires matches != [] && Increasing(matches, |text|)
    ensures boundaries == Boundaries(text, matches)
  {
    boundaries := [Boundary('A', 0, matches[0])];
    for i := 0 to |matches|
      invariant |boundaries| == i + 1
      invariant boundaries == Boundaries(text, matches)[..i + 1]
    {
      var start := matches[i];
      var end := if i + 1 < |matches| then matches[i + 1] else |text|;
      boundaries := boundaries + [Boundary(text[start], start, end)];
    }
  }

  /** The records for the non-empty subsections. */
  lemma SubsectionDocsPrefix(l: Listing, bs: seq<Boundary>, k: nat)
    requires ValidBoundaries(l.fullText, bs) && k < |bs|
    ensures ValidBoundaries(l.fullText, bs[..k]) && ValidBoundaries(l.fullText, bs[..k + 1])
    ensures var sub := Strip(l.fullText[bs[k].start..bs[k].end]);
      SubsectionDocs(l, bs[..k + 1])
      == SubsectionDocs(l, bs[..k]) + (if sub == [] then [] else [SubsectionDoc(l, bs[k].letter, sub)])
  {
    assert bs[..k + 1][..k] == bs[..k];
  }

  method EmitSubsections(listing: Listing, boundaries: seq<Boundary>) returns (docs: seq<Listing>)
    requires ValidBoundaries(listing.fullText, boundaries)
    ensures docs == SubsectionDocs(listing, boundaries)
  {
    docs := [];
    for k := 0 to |boundaries|
      invariant docs == SubsectionDocs(listing, boundaries[..k])
    {
      SubsectionDocsPrefix(listing, boundaries, k);
      var b := boundaries[k];
      var subText := Strip(listing.fullText[b.start..b.end]);
      if subText == [] {
        continue;
      }
      var criteriaSummary := Strip(Slice(subText, 0, SummaryCap)) + (if |subText| > SummaryCap then "..." else "");
      docs := docs + [Listing("2.00_" + [b.letter], "Section 2.00" + [b.letter] + " - " + TopicTitle(b.letter),
                              listing.bodySystem, listing.sectionNumber, subText, criteriaSummary,
                              listing.sourceUrl, Some([b.letter]), Some(TopicOf(b.letter)))];
    }
    assert boundaries[..|boundaries|] == boundaries;
  }

  // ---------------------------------------------------------------------
  // Properties of the split

  lemma {:induction false} FlatMapAppend(f: Listing -> seq<Listing>, a: seq<Listing>, b: seq<Listing>)
    ensures FlatMap(f, a + b) == FlatMap(f, a) + FlatMap(f, b)
    decreases |b|
  {
    if b == [] {
      assert a + b == a;
    } else {
      var init, last := b[..|b| - 1], b[|b| - 1];
      assert (a + b)[..|a + b| - 1] == a + init;
      assert (a + b)[|a + b| - 1] == last;
      assert FlatMap(f, a + b) == FlatMap(f, a + init) + f(last);
      FlatMapAppend(f, a, init);
      assert FlatMap(f, b) == FlatMap(f, init) + f(last);
    }
  }

  lemma {:induction false} FlatMapIdentity(f: Listing -> seq<Listing>, ls: seq<Listing>)
    requires forall l :: l in ls ==> f(l) == [l]
    ensures FlatMap(f, ls) == ls
    decreases |ls|
  {
    if ls != [] {
      var init, last := ls[..|ls| - 1], ls[|ls| - 1];
      assert last in ls;
      forall l | l in init ensures f(l) == [l] {
        assert l in ls;
      }
      FlatMapIdentity(f, init);
      assert FlatMap(f, ls) == init + [last];
      assert init + [last] == ls;
    }
  }

  /** Splitting a list splits each part on its own. */
  lemma SplitAllAppend(a: seq<Listing>, b: seq<Listing>)
    ensures SplitAll(a + b) == SplitAll(a) + SplitAll(b)
  {
    FlatMapAppend(SplitOne, a, b);
  }

  /** A list without listing 2.00 comes out unchanged; with the previous
      lemma, every other listing keeps its place relative to the rest. */
  lemma SplitKeepsOthers(ls: seq<Listing>)
    requires forall l :: l in ls ==> l.listingNumber != "2.00"
    ensures SplitAll(ls) == ls
  {
    FlatMapIdentity(SplitOne, ls);
  }

  /** No header at or after `from`: the scan finds nothing. */
  lemma {:induction false} SubsectionStartsNone(s: string, from: nat)
    requires forall p: nat :: from <= p < |s| ==> SubsectionHeaderEnd(s, p).None?
    ensures SubsectionStarts(s, from) == []
    decreases |s| - from
  {
    if from < |s| {
      SubsectionStartsNone(s, from + 1);
    }
  }

  /** Listing 2.00 without any subsection header is kept as it is. */
  lemma NoHeaderKeepsListing(l: Listing)
    requires l.listingNumber == "2.00"
    requires forall p: nat :: p < |l.fullText| ==> SubsectionHeaderEnd(l.fullText, p).None?
    ensures SplitOne(l) == [l]
  {
    SubsectionStartsNone(l.fullText, 0);
  }

  /** A subsection record of `l`: its number, title and topic come from
      its letter, it inherits `l`'s section, body system and page, and its
      text is not empty. */
  predicate IsSubsectionOf(l: Listing, d: Listing) {
    && d.subsection.Some? && |d.subsection.value| == 1
    && 'A' <= d.subsection.value[0] <= 'E'
    && d.listingNumber == "2.00_" + d.subsection.value
    && d.subsectionTopic == Some(TopicOf(d.subsection.value[0]))
    && d.title == "Section 2.00" + d.subsection.value + " - " + TopicTitle(d.subsection.value[0])
    && d.bodySystem == l.bodySystem && d.sectionNumber == l.sectionNumber && d.sourceUrl == l.sourceUrl
    && d.fullText != [] && d.criteriaSummary == Summarize(d.fullText)
  }

  /** Every record cut from a listing is one of its subsections, and there
      is at most one per boundary. */
  lemma {:induction false} SubsectionDocsSpec(l: Listing, bs: seq<Boundary>)
    requires ValidBoundaries(l.fullText, bs)
    ensures forall d :: d in SubsectionDocs(l, bs) ==> IsSubsectionOf(l, d)
    ensures |SubsectionDocs(l, bs)| <= |bs|
    decreases |bs|
  {
    if bs != [] {
      SubsectionDocsSpec(l, bs[..|bs| - 1]);
    }
  }

  /** The stripped text of a boundary's span. */
  function SpanText(s: string, b: Boundary): string
    requires b.start <= b.end <= |s|
  {
    Strip(s[b.start..b.end])
  }

  /** A boundary whose stripped span is not empty yields the record
      carrying that text. */
  lemma {:induction false} SubsectionDocsComplete(l: Listing, bs: seq<Boundary>)
    requires ValidBoundaries(l.fullText, bs)
    ensures forall k :: 0 <= k < |bs| && SpanText(l.fullText, bs[k]) != [] ==>
              SubsectionDoc(l, bs[k].letter, SpanText(l.fullText, bs[k])) in SubsectionDocs(l, bs)
    decreases |bs|
  {
    if bs != [] {
      var n := |bs| - 1;
      var init := bs[..n];
      SubsectionDocsPrefix(l, bs, n);
      assert bs[..n + 1] == bs;
      SubsectionDocsComplete(l, init);
      var before := SubsectionDocs(l, init);
      var last := if SpanText(l.fullText, bs[n]) == [] then [] else [SubsectionDoc(l, bs[n].letter, SpanText(l.fullText, bs[n]))];
      assert SubsectionDocs(l, bs) == before + last;
      forall k | 0 <= k < |bs| && SpanText(l.fullText, bs[k]) != []
        ensures SubsectionDoc(l, bs[k].letter, SpanText(l.fullText, bs[k])) in before + last
      {
        if k < n {
          assert init[k] == bs[k];
          assert SpanText(l.fullText, init[k]) == SpanText(l.fullText, bs[k]);
          assert SubsectionDoc(l, bs[k].letter, SpanText(l.fullText, bs[k])) in before;
        } else {
          assert SubsectionDoc(l, bs[k].letter, SpanText(l.fullText, bs[k])) in last;
        }
      }
    }
  }

  /** Every record is the one of some boundary, carrying the stripped text
      of its span. */
  lemma {:induction false} SubsectionDocsSound(l: Listing, bs: seq<Boundary>)
    requires ValidBoundaries(l.fullText, bs)
    ensures forall d :: d in SubsectionDocs(l, bs) ==>
              exists k :: 0 <= k < |bs| && d == SubsectionDoc(l, bs[k].letter, SpanText(l.fullText, bs[k]))
    decreases |bs|
  {
    if bs != [] {
      var n := |bs| - 1;
      var init := bs[..n];
      SubsectionDocsPrefix(l, bs, n);
      assert bs[..n + 1] == bs;
      SubsectionDocsSound(l, init);
      var before := SubsectionDocs(l, init);
      var last := if SpanText(l.fullText, bs[n]) == [] then [] else [SubsectionDoc(l, bs[n].letter, SpanText(l.fullText, bs[n]))];
      assert SubsectionDocs(l, bs) == before + last;
      forall d | d in before + last
        ensures exists k :: 0 <= k < |bs| && d == SubsectionDoc(l, bs[k].letter, SpanText(l.fullText, bs[k]))
      {
        if d in before {
          var k :| 0 <= k < |init| && d == SubsectionDoc(l, init[k].letter, SpanText(l.fullText, init[k]));
          PrefixAt(bs, n, k);
          assert 0 <= k < |bs| && d == SubsectionDoc(l, bs[k].letter, SpanText(l.fullText, bs[k]));
        } else {
          assert d == SubsectionDoc(l, bs[n].letter, SpanText(l.fullText, bs[n]));
        }
      }
    }
  }

  lemma PrefixAt(bs: seq<Boundary>, n: nat, k: nat)
    requires k < n <= |bs|
    ensures bs[..n][k] == bs[k]
  {
  }

  /** The raw spans of boundaries `k` onwards, concatenated. */
  function SpansFrom(s: string, bs: seq<Boundary>, k: nat): string
    requires ValidBoundaries(s, bs)
    decreases |bs| - k
  {
    if k >= |bs| then "" else s[bs[k].start..bs[k].end] + SpansFrom(s, bs, k + 1)
  }

  /** Adjacent boundaries meet and the spans run to the end of the text,
      so from boundary `k` on they make up the rest of the text. */
  lemma {:induction false} SpansCover(s: string, bs: seq<Boundary>, k: nat)
    requires ValidBoundaries(s, bs) && k < |bs|
    requires forall j :: 0 <= j < |bs| - 1 ==> bs[j].end == bs[j + 1].start
    requires bs[|bs| - 1].end == |s|
    ensures SpansFrom(s, bs, k) == s[bs[k].start..]
    decreases |bs| - k
  {
    var a, b := bs[k].start, bs[k].end;
    assert SpansFrom(s, bs, k) == s[a..b] + SpansFrom(s, bs, k + 1);
    if k + 1 < |bs| {
      SpansCover(s, bs, k + 1);
      assert bs[k + 1].start == b;
      assert s[a..b] + s[b..] == s[a..];
    } else {
      assert b == |s|;
      assert SpansFrom(s, bs, k + 1) == "";
    }
  }

  /** Section A starts the text; each section ends where the next begins;
      the last ends with the text; so the unstripped sections concatenate
      back to the listing's full text. */
  lemma BoundariesPartition(s: string, starts: seq<nat>)
    requires starts != [] && Increasing(starts, |s|)
    requires forall p :: p in starts ==> 'B' <= s[p] <= 'E'
    ensures var bs := Boundaries(s, starts);
      && ValidBoundaries(s, bs)
      && bs[0] == Boundary('A', 0, starts[0])
      && (forall j :: 0 <= j < |bs| - 1 ==> bs[j].end == bs[j + 1].start)
      && bs[|bs| - 1].end == |s|
      && SpansFrom(s, bs, 0) == s
  {
    var bs := Boundaries(s, starts);
    BoundariesValid(s, starts);
    assert forall j :: 0 <= j < |bs| - 1 ==> bs[j].end == bs[j + 1].start;
    SpansCover(s, bs, 0);
    assert s[0..] == s;
  }

  // ---------------------------------------------------------------------
  // De-duplication

  /** The `deduped` dictionary: entries by listing number, and the numbers
      in insertion order. */
  datatype Dedup = Dedup(entries: map<string, Listing>, order: seq<string>)

  ghost predicate DedupValid(d: Dedup) {
    && (forall n :: n in d.entries <==> n in d.order)
    && (forall i, j :: 0 <= i < j < |d.order| ==> d.order[i] != d.order[j])
  }

  /** The dictionary after the loop over `ls`: a number's entry is replaced
      only by a strictly longer full text. */
  function DedupOf(ls: seq<Listing>): (d: Dedup)
    ensures DedupValid(d)
    decreases |ls|
  {
    if ls == [] then Dedup(map[], [])
    else DedupStep(DedupOf(ls[..|ls| - 1]), ls[|ls| - 1])
  }

  /** One listing into the table: a new number is appended; a known number
      is replaced only by a strictly longer text. */
  function DedupStep(d: Dedup, l: Listing): (d': Dedup)
    requires DedupValid(d)
    ensures DedupValid(d')
  {
    var n := l.listingNumber;
    if n !in d.entries then Dedup(d.entries[n := l], d.order + [n])
    else if |l.fullText| > |d.entries[n].fullText| then Dedup(d.entries[n := l], d.order)
    else d
  }

  lemma DedupOfPrefix(ls: seq<Listing>, i: nat)
    requires i < |ls|
    ensures DedupOf(ls[..i + 1]) == DedupStep(DedupOf(ls[..i]), ls[i])
  {
    assert ls[..i + 1][..i] == ls[..i];
  }

  /** `list(deduped.values())` */
  function Deduped(ls: seq<Listing>): seq<Listing> {
    var d := DedupOf(ls);
    seq(|d.order|, k requires 0 <= k < |d.order| => d.entries[d.order[k]])
  }

  /** Reference definition: the listing numbered `n` with the longest full
      text, the earliest one among equally long ones. */
  function Longest(ls: seq<Listing>, n: string): (r: Option<Listing>)
    ensures r.Some? ==> r.value in ls && r.value.listingNumber == n
    ensures r.Some? ==> forall l :: l in ls && l.listingNumber == n ==> |l.fullText| <= |r.value.fullText|
    ensures r.None? <==> forall l :: l in ls ==> l.listingNumber != n
    decreases |ls|
  {
    if ls == [] then None
    else
      var rest := Longest(ls[1..], n);
      assert forall l :: l in ls ==> l == ls[0] || l in ls[1..];
      if ls[0].listingNumber != n then rest
      else if rest.None? || |rest.value.fullText| <= |ls[0].fullText| then Some(ls[0])
      else rest
  }

  /** Appending a listing changes the winner only when it is strictly
      longer. */
  lemma {:induction false} LongestSnoc(ls: seq<Listing>, l: Listing, n: string)
    ensures Longest(ls + [l], n)
      == if l.listingNumber != n then Longest(ls, n)
         else if Longest(ls, n).None? || |l.fullText| > |Longest(ls, n).value.fullText| then Some(l)
         else Longest(ls, n)
    decreases |ls|
  {
    if ls == [] {
      assert ([] + [l])[1..] == [];
    } else {
      assert (ls + [l])[1..] == ls[1..] + [l];
      assert (ls + [l])[0] == ls[0];
      LongestSnoc(ls[1..], l, n);
    }
  }

  /** The loop keeps, for every listing number, exactly the reference
      winner. */
  lemma {:induction false} DedupIsLongest(ls: seq<Listing>)
    ensures forall n :: n in DedupOf(ls).entries <==> Longest(ls, n).Some?
    ensures forall n :: n in DedupOf(ls).entries ==> DedupOf(ls).entries[n] == Longest(ls, n).value
    decreases |ls|
  {
    if ls != [] {
      var init := ls[..|ls| - 1];
      var l := ls[|ls| - 1];
      assert ls == init + [l];
      DedupIsLongest(init);
      forall n
        ensures n in DedupOf(ls).entries <==> Longest(ls, n).Some?
        ensures n in DedupOf(ls).entries ==> DedupOf(ls).entries[n] == Longest(ls, n).value
      {
        DedupStepKey(DedupOf(init), init, l, n);
      }
    }
  }

  /** One step of the table agrees with one more listing for `Longest`, at
      each number. */
  lemma DedupStepKey(d: Dedup, init: seq<Listing>, l: Listing, n: string)
    requires DedupValid(d)
    requires n in d.entries <==> Longest(init, n).Some?
    requires n in d.entries ==> d.entries[n] == Longest(init, n).value
    ensures n in DedupStep(d, l).entries <==> Longest(init + [l], n).Some?
    ensures n in DedupStep(d, l).entries ==> DedupStep(d, l).entries[n] == Longest(init + [l], n).value
  {
    LongestSnoc(init, l, n);
  }

  /** After de-duplication each listing number occurs once. */
  lemma DedupedDistinct(ls: seq<Listing>)
    ensures forall i, j :: 0 <= i < j < |Deduped(ls)| ==> Deduped(ls)[i].listingNumber != Deduped(ls)[j].listingNumber
  {
    var d := DedupOf(ls);
    var r := Deduped(ls);
    DedupKeysAreNumbers(ls);
    forall i, j | 0 <= i < j < |r|
      ensures r[i].listingNumber != r[j].listingNumber
    {
      assert d.order[i] in d.entries && d.order[j] in d.entries;
      assert r[i] == d.entries[d.order[i]] && r[j] == d.entries[d.order[j]];
    }
  }

  /** Every listing number of the input survives de-duplication. */
  lemma DedupedComplete(ls: seq<Listing>)
    ensures forall l :: l in ls ==> exists k :: 0 <= k < |Deduped(ls)| && Deduped(ls)[k].listingNumber == l.listingNumber
  {
    var d := DedupOf(ls);
    var r := Deduped(ls);
    DedupIsLongest(ls);
    DedupKeysAreNumbers(ls);
    forall l | l in ls
      ensures exists k :: 0 <= k < |r| && r[k].listingNumber == l.listingNumber
    {
      var n := l.listingNumber;
      assert Longest(ls, n).Some?;
      assert n in d.order;
      var k :| 0 <= k < |d.order| && d.order[k] == n;
      assert r[k] == d.entries[n];
    }
  }

  /** Each kept listing is the longest of its number, the earliest on
      ties. */
  lemma DedupedLongest(ls: seq<Listing>)
    ensures forall k :: 0 <= k < |Deduped(ls)| ==> Some(Deduped(ls)[k]) == Longest(ls, Deduped(ls)[k].listingNumber)
  {
    var d := DedupOf(ls);
    var r := Deduped(ls);
    DedupIsLongest(ls);
    DedupKeysAreNumbers(ls);
    forall k | 0 <= k < |r|
      ensures Some(r[k]) == Longest(ls, r[k].listingNumber)
    {
      assert d.order[k] in d.entries;
      assert r[k] == d.entries[d.order[k]];
    }
  }

  /** Each entry is filed under its own listing number. */
  lemma {:induction false} DedupKeysAreNumbers(ls: seq<Listing>)
    ensures forall n :: n in DedupOf(ls).entries ==> DedupOf(ls).entries[n].listingNumber == n
    decreases |ls|
  {
    if ls != [] {
      DedupKeysAreNumbers(ls[..|ls| - 1]);
    }
  }

  /** One step appends the listing's number exactly when it is new. */
  lemma DedupStepOrder(d: Dedup, l: Listing)
    requires DedupValid(d)
    ensures DedupStep(d, l).order
      == if l.listingNumber in d.order then d.order else d.order + [l.listingNumber]
  {
  }

  /** Some listing of `ls` has number `n`. */
  predicate OccursIn(ls: seq<Listing>, n: string) {
    exists q :: 0 <= q < |ls| && ls[q].listingNumber == n
  }

  lemma OccursSnoc(init: seq<Listing>, l: Listing, n: string)
    ensures OccursIn(init + [l], n) <==> OccursIn(init, n) || l.listingNumber == n
  {
    var ls := init + [l];
    if OccursIn(ls, n) {
      var q :| 0 <= q < |ls| && ls[q].listingNumber == n;
      if q < |init| {
        assert init[q] == ls[q];
      }
    }
    if OccursIn(init, n) {
      var q :| 0 <= q < |init| && init[q].listingNumber == n;
      assert ls[q] == init[q];
    }
    assert ls[|init|] == l;
  }

  /** The table holds exactly the numbers that occur in the input. */
  lemma {:induction false} DedupOrderOccurs(ls: seq<Listing>)
    ensures forall n :: n in DedupOf(ls).order <==> OccursIn(ls, n)
    decreases |ls|
  {
    if ls != [] {
      var m := |ls| - 1;
      var init := ls[..m];
      DedupOrderOccurs(init);
      DedupStepOrder(DedupOf(init), ls[m]);
      assert ls == init + [ls[m]];
      forall n
        ensures n in DedupOf(ls).order <==> OccursIn(ls, n)
      {
        OccursSnoc(init, ls[m], n);
      }
    }
  }

  /** Every occurrence of number `b` in `ls` comes after some occurrence
      of number `a`. */
  predicate SeenBefore(ls: seq<Listing>, a: string, b: string) {
    forall q :: 0 <= q < |ls| && ls[q].listingNumber == b ==>
      exists p :: 0 <= p < q && ls[p].listingNumber == a
  }

  /** The numbers are kept in the order of their first occurrence. */
  lemma {:induction false} DedupFirstSeenOrder(ls: seq<Listing>)
    ensures forall i, j :: 0 <= i < j < |DedupOf(ls).order| ==>
              SeenBefore(ls, DedupOf(ls).order[i], DedupOf(ls).order[j])
    decreases |ls|
  {
    if ls != [] {
      var m := |ls| - 1;
      var init := ls[..m];
      var o, o' := DedupOf(init).order, DedupOf(ls).order;
      DedupFirstSeenOrder(init);
      DedupOrderOccurs(init);
      DedupStepOrder(DedupOf(init), ls[m]);
      assert o' == if ls[m].listingNumber in o then o else o + [ls[m].listingNumber];
      assert ls == init + [ls[m]];
      forall i, j | 0 <= i < j < |o'|
        ensures SeenBefore(ls, o'[i], o'[j])
      {
        assert o'[i] == o[i] && o[i] in o;
        if j < |o| {
          assert o'[j] == o[j] && o[j] in o;
          SeenBeforeSnoc(init, ls[m], o[i], o[j]);
        } else {
          assert o'[j] == ls[m].listingNumber && o'[j] !in o;
          SeenBeforeNew(init, ls[m], o[i]);
        }
      }
    }
  }

  /** An order already established, between numbers that both occur, is
      kept by one more listing. */
  lemma SeenBeforeSnoc(init: seq<Listing>, l: Listing, a: string, b: string)
    requires SeenBefore(init, a, b) && OccursIn(init, b)
    ensures SeenBefore(init + [l], a, b)
  {
    var ls := init + [l];
    var q' :| 0 <= q' < |init| && init[q'].listingNumber == b;
    forall q | 0 <= q < |ls| && ls[q].listingNumber == b
      ensures exists p :: 0 <= p < q && ls[p].listingNumber == a
    {
      var qq := if q < |init| then q else q';
      assert init[qq] == ls[qq];
      var p :| 0 <= p < qq && init[p].listingNumber == a;
      assert ls[p] == init[p];
    }
  }

  /** A number seen for the first time in the last listing comes after
      every number seen before it. */
  lemma SeenBeforeNew(init: seq<Listing>, l: Listing, a: string)
    requires OccursIn(init, a) && !OccursIn(init, l.listingNumber)
    ensures SeenBefore(init + [l], a, l.listingNumber)
  {
    var ls := init + [l];
    var p :| 0 <= p < |init| && init[p].listingNumber == a;
    assert ls[p] == init[p];
  }

  /** `list(deduped.values())` lists the numbers in first-seen order. */
  lemma DedupedFirstSeenOrder(ls: seq<Listing>)
    ensures forall i, j :: 0 <= i < j < |Deduped(ls)| ==>
              SeenBefore(ls, Deduped(ls)[i].listingNumber, Deduped(ls)[j].listingNumber)
  {
    var d := DedupOf(ls);
    var r := Deduped(ls);
    DedupKeysAreNumbers(ls);
    DedupFirstSeenOrder(ls);
    forall i, j | 0 <= i < j < |r|
      ensures SeenBefore(ls, r[i].listingNumber, r[j].listingNumber)
    {
      assert d.order[i] in d.entries && d.order[j] in d.entries;
      assert r[i].listingNumber == d.order[i] && r[j].listingNumber == d.order[j];
    }
  }

  method DedupListings(allListings: seq<Listing>) returns (deduped: seq<Listing>)
    ensures deduped == Deduped(allListings)
  {
    var entries: map<string, Listing> := map[];
    var order: seq<string> := [];
    for i := 0 to |allListings|
      invariant Dedup(entries, order) == DedupOf(allListings[..i])
    {
      DedupOfPrefix(allListings, i);
      var listing := allListings[i];
      var num := listing.listingNumber;
      if num !in entries || |listing.fullText| > |entries[num].fullText| {
        if num !in entries {
          order := order + [num];
        }
        entries := entries[num := listing];
      }
    }
    assert allListings[..|allListings|] == allListings;
    deduped := seq(|order|, k requires 0 <= k < |order| => entries[order[k]]);
  }

  // ---------------------------------------------------------------------
  // All sections

  /** A section's page: its number, and its extracted text when the page
      could be fetched. */
  datatype Page = Page(sectionNumber: string, text: Option<string>)

  /** The intros and listings of the fetched pages, in page order. */
  function Parsed(pages: seq<Page>): (seq<SectionIntro>, seq<Listing>)
    decreases |pages|
  {
    if pages == [] then ([], [])
    else
      var prev := Parsed(pages[..|pages| - 1]);
      var p := pages[|pages| - 1];
      match p.text
      case None => prev
      case Some(text) =>
        var parsed := Parse(text, p.sectionNumber, Config.BodySystem(p.sectionNumber));
        (prev.0 + [parsed.0], prev.1 + parsed.1)
  }

  /** What `scrape_all` returns: the listings de-duplicated and then split,
      and the intros of the fetched sections. */
  function Scrape(pages: seq<Page>): (seq<Listing>, seq<SectionIntro>) {
    (SplitAll(Deduped(Parsed(pages).1)), Parsed(pages).0)
  }

  method ScrapeAll(pages: seq<Page>) returns (allListings: seq<Listing>, allSections: seq<SectionIntro>)
    ensures (allListings, allSections) == Scrape(pages)
  {
    allListings := [];
    allSections := [];
    for i := 0 to |pages|
      invariant (allSections, allListings) == Parsed(pages[..i])
    {
      assert pages[..i + 1][..i] == pages[..i];
      var sectionNumber := pages[i].sectionNumber;
      var bodySystem := Config.BodySystem(sectionNumber);
      if pages[i].text.None? {
        continue;
      }
      var sectionIntro, listings := ParseSection(pages[i].text.value, sectionNumber, bodySystem);
      allSections := allSections + [sectionIntro];
      allListings := allListings + listings;
    }
    assert pages[..|pages|] == pages;
    allListings := DedupListings(allListings);
    allListings := SplitSection2Listing(allListings);
  }

  /** One intro per fetched page, each for its page's section and body
      system. */
  lemma {:induction false} IntrosSpec(pages: seq<Page>)
    ensures |Parsed(pages).0| <= |pages|
    ensures forall s :: s in Parsed(pages).0 ==>
      && s.bodySystem == Config.BodySystem(s.sectionNumber)
      && (exists k :: 0 <= k < |pages| && pages[k].text.Some? && pages[k].sectionNumber == s.sectionNumber)
    decreases |pages|
  {
    if pages != [] {
      var init := pages[..|pages| - 1];
      IntrosSpec(init);
      forall s | s in Parsed(pages).0
        ensures s.bodySystem == Config.BodySystem(s.sectionNumber)
        ensures exists k :: 0 <= k < |pages| && pages[k].text.Some? && pages[k].sectionNumber == s.sectionNumber
      {
        if s in Parsed(init).0 {
          var k :| 0 <= k < |init| && init[k].text.Some? && init[k].sectionNumber == s.sectionNumber;
          assert pages[k] == init[k];
        } else {
          assert pages[|pages| - 1].text.Some?;
        }
      }
    }
  }

  /** The section numbers of the pages that could be fetched, in page
      order. */
  function FetchedSections(pages: seq<Page>): seq<string>
    decreases |pages|
  {
    if pages == [] then []
    else
      var p := pages[|pages| - 1];
      FetchedSections(pages[..|pages| - 1]) + (if p.text.Some? then [p.sectionNumber] else [])
  }

  /** Exactly one intro per fetched page, in page order, each for its
      page's section. */
  lemma {:induction false} IntrosInPageOrder(pages: seq<Page>)
    ensures |Parsed(pages).0| == |FetchedSections(pages)|
    ensures forall k :: 0 <= k < |Parsed(pages).0| ==> Parsed(pages).0[k].sectionNumber == FetchedSections(pages)[k]
    decreases |pages|
  {
    if pages != [] {
      IntrosInPageOrder(pages[..|pages| - 1]);
    }
  }

  /** Without a 2.00 listing among the parsed pages, the scraped listings
      are exactly the de-duplicated ones. */
  lemma ScrapeWithoutMegaListing(pages: seq<Page>)
    requires forall l :: l in Parsed(pages).1 ==> l.listingNumber != "2.00"
    ensures Scrape(pages).0 == Deduped(Parsed(pages).1)
  {
    var ls := Parsed(pages).1;
    DedupIsLongest(ls);
    forall l | l in Deduped(ls)
      ensures l.listingNumber != "2.00"
    {
      var d := DedupOf(ls);
      var k :| 0 <= k < |d.order| && Deduped(ls)[k] == l;
      assert d.order[k] in d.entries;
    }
    SplitKeepsOthers(Deduped(ls));
  }
}
