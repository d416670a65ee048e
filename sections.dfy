/** Splitting the text of one Blue Book section page into the section's
    introduction and its individual listings. The page text is what the
    HTML parser extracted, one text node per line. */
module Sections {
  import opened Wrappers
  import opened Text
  import Config

  /** One listing record. Only the subsections cut out of listing 2.00
      carry `subsection` and `subsection_topic`. */
  datatype Listing = Listing(
    listingNumber: string,
    title: string,
    bodySystem: string,
    sectionNumber: string,
    fullText: string,
    criteriaSummary: string,
    sourceUrl: string,
    subsection: Option<string>,
    subsectionTopic: Option<string>)

  /** The text of a section before its first listing. */
  datatype SectionIntro = SectionIntro(sectionNumber: string, bodySystem: string,
                                       introText: string, sourceUrl: string)

  /** A criteria summary keeps this many characters of the text. */
  const SummaryCap: nat := 300

  /** The first `SummaryCap` characters, stripped, with "..." appended when
      the text was longer. */
  function Summarize(s: string): (r: string)
    ensures |r| <= SummaryCap + 3
    ensures |s| <= SummaryCap ==> r == Strip(s)
    ensures |s| > SummaryCap ==> |r| >= 3 && r[|r| - 3..] == "..." && r[..|r| - 3] == Strip(s[..SummaryCap])
  {
    Strip(Slice(s, 0, SummaryCap)) + (if |s| > SummaryCap then "..." else "")
  }

  /** `^` of a multi-line pattern matches at `p`. */
  predicate LineStart(s: string, p: nat) {
    p == 0 || (p <= |s| && s[p - 1] == '\n')
  }

  /** The first line break at or after `i`, or the end of `s`: where `$`
      of a multi-line pattern first matches. */
  function LineEnd(s: string, i: nat): (e: nat)
    requires i <= |s|
    ensures i <= e <= |s|
    ensures e < |s| ==> s[e] == '\n'
    ensures forall k :: i <= k < e ==> s[k] != '\n'
    decreases |s| - i
  {
    if i == |s| || s[i] == '\n' then i else LineEnd(s, i + 1)
  }

  /** `section_number.split(".")[0]`: everything before the first dot. */
  function SectionPrefix(sectionNumber: string): (r: string)
    ensures |r| <= |sectionNumber| && r == sectionNumber[..|r|]
    ensures forall i :: 0 <= i < |r| ==> r[i] != '.'
    ensures |r| < |sectionNumber| ==> sectionNumber[|r|] == '.'
  {
    if sectionNumber == [] || sectionNumber[0] == '.' then []
    else [sectionNumber[0]] + SectionPrefix(sectionNumber[1..])
  }

  /** One match of the listing-header pattern: the listing number spans
      `start..numberEnd`, the title `titleStart..end`. */
  datatype HeaderMatch = HeaderMatch(start: nat, numberEnd: nat, titleStart: nat, end: nat)

  predicate WellFormedMatch(s: string, m: HeaderMatch) {
    m.start < m.numberEnd < m.titleStart < m.end <= |s|
  }

  /** The match at `p` of `^(<prefix>\.\d{2})\s+([A-Z].*?)$` in
      multi-line mode, if any. */
  function ListingHeaderAt(s: string, prefix: string, p: nat): (r: Option<HeaderMatch>)
    ensures r.Some? ==> r.value.start == p && WellFormedMatch(s, r.value)
    ensures r.Some? ==> r.value.numberEnd == p + |prefix| + 3
  {
    var n := p + |prefix| + 3;
    if LineStart(s, p) && n <= |s| && StartsAt(s, p, prefix) && s[p + |prefix|] == '.'
       && IsDigit(s[p + |prefix| + 1]) && IsDigit(s[p + |prefix| + 2]) then
      var q := SpaceRunEnd(s, n);
      if n < q < |s| && 'A' <= s[q] <= 'Z' then Some(HeaderMatch(p, n, q, LineEnd(s, q + 1))) else None
    else None
  }

  /** `listing_pattern.finditer(text)` from position `from` on: the
      leftmost match, then the matches after its end. */
  function ListingHeaders(s: string, prefix: string, from: nat): (ms: seq<HeaderMatch>)
    decreases |s| - from
  {
    if from >= |s| then []
    else match ListingHeaderAt(s, prefix, from)
      case Some(m) => [m] + ListingHeaders(s, prefix, m.end)
      case None => ListingHeaders(s, prefix, from + 1)
  }

  /** Every match the scan reports is a match of the pattern at its
      start, at or after `from`. */
  lemma {:induction false} ScanMatches(s: string, prefix: string, from: nat)
    ensures forall m :: m in ListingHeaders(s, prefix, from) ==>
      from <= m.start && ListingHeaderAt(s, prefix, m.start) == Some(m)
    decreases |s| - from
  {
    if from < |s| {
      match ListingHeaderAt(s, prefix, from)
      case Some(m) =>
        ScanMatches(s, prefix, m.end);
        assert ListingHeaders(s, prefix, from) == [m] + ListingHeaders(s, prefix, m.end);
      case None =>
        ScanMatches(s, prefix, from + 1);
        assert ListingHeaders(s, prefix, from) == ListingHeaders(s, prefix, from + 1);
    }
  }

  /** The reported matches do not overlap and come in text order. */
  lemma {:induction false} ScanOrdered(s: string, prefix: string, from: nat)
    ensures forall i, j :: 0 <= i < j < |ListingHeaders(s, prefix, from)| ==>
      ListingHeaders(s, prefix, from)[i].end <= ListingHeaders(s, prefix, from)[j].start
    decreases |s| - from
  {
    if from < |s| {
      var ms := ListingHeaders(s, prefix, from);
      match ListingHeaderAt(s, prefix, from)
      case Some(m) =>
        var rest := ListingHeaders(s, prefix, m.end);
        ScanOrdered(s, prefix, m.end);
        ScanMatches(s, prefix, m.end);
        assert ms == [m] + rest;
        OrderedCons(m, rest);
      case None =>
        ScanOrdered(s, prefix, from + 1);
        assert ms == ListingHeaders(s, prefix, from + 1);
    }
  }

  /** A match ending before every later match starts can lead an ordered
      list of matches. */
  lemma OrderedCons(m: HeaderMatch, rest: seq<HeaderMatch>)
    requires forall r :: r in rest ==> m.end <= r.start
    requires forall i, j :: 0 <= i < j < |rest| ==> rest[i].end <= rest[j].start
    ensures forall i, j :: 0 <= i < j < |[m] + rest| ==> ([m] + rest)[i].end <= ([m] + rest)[j].start
  {
    var ms := [m] + rest;
    forall i, j | 0 <= i < j < |ms|
      ensures ms[i].end <= ms[j].start
    {
      assert ms[j] == rest[j - 1];
      if i > 0 {
        assert ms[i] == rest[i - 1];
      } else {
        assert rest[j - 1] in rest;
      }
    }
  }

  /** No match is skipped before the first one reported. */
  lemma {:induction false} ScanLeftmost(s: string, prefix: string, from: nat)
    ensures forall p :: from <= p < FirstStart(s, ListingHeaders(s, prefix, from)) ==>
      ListingHeaderAt(s, prefix, p).None?
    decreases |s| - from
  {
    if from < |s| && ListingHeaderAt(s, prefix, from).None? {
      ScanLeftmost(s, prefix, from + 1);
    }
  }

  /** Where the first match starts, or the end of the text when there is
      none. */
  function FirstStart(s: string, ms: seq<HeaderMatch>): nat {
    if ms == [] then |s| else ms[0].start
  }

  /** The header matches of a section's text. */
  function Headers(text: string, sectionNumber: string): seq<HeaderMatch> {
    ListingHeaders(text, SectionPrefix(sectionNumber), 0)
  }

  /** Matches as the scan returns them: well formed, in order, not
      overlapping. */
  predicate Ordered(s: string, ms: seq<HeaderMatch>) {
    && (forall i :: 0 <= i < |ms| ==> WellFormedMatch(s, ms[i]))
    && (forall i, j :: 0 <= i < j < |ms| ==> ms[i].end <= ms[j].start)
  }

  lemma HeadersOrdered(text: string, sectionNumber: string)
    ensures Ordered(text, Headers(text, sectionNumber))
  {
    var ms := Headers(text, sectionNumber);
    ScanMatches(text, SectionPrefix(sectionNumber), 0);
    ScanOrdered(text, SectionPrefix(sectionNumber), 0);
    forall i | 0 <= i < |ms|
      ensures WellFormedMatch(text, ms[i])
    {
      assert ms[i] in ms;
      assert ListingHeaderAt(text, SectionPrefix(sectionNumber), ms[i].start) == Some(ms[i]);
    }
  }

  /** Where listing `i`'s text ends: at the next header, or at the end. */
  function PieceEnd(s: string, ms: seq<HeaderMatch>, i: nat): nat {
    if i + 1 < |ms| then ms[i + 1].start else |s|
  }

  /** The record for the listing whose header is `ms[i]`. */
  function ListingAt(s: string, ms: seq<HeaderMatch>, i: nat, sectionNumber: string, bodySystem: string): Listing
    requires Ordered(s, ms) && i < |ms|
  {
    var m := ms[i];
    var number := s[m.start..m.numberEnd];
    var title := Strip(s[m.titleStart..m.end]);
    var fullText := Strip(s[m.start..PieceEnd(s, ms, i)]);
    var titleLine := number + " " + title;
    var remaining := Strip(Slice(fullText, |titleLine|, |fullText|));
    Listing(number, title, bodySystem, sectionNumber, fullText, Summarize(remaining),
            Config.SectionUrl(sectionNumber), None, None)
  }

  function IntroText(s: string, ms: seq<HeaderMatch>): string
    requires Ordered(s, ms)
  {
    if ms == [] then Strip(s) else Strip(s[..ms[0].start])
  }

  /** One record per header match, in order. */
  function ListingsOf(s: string, ms: seq<HeaderMatch>, sectionNumber: string, bodySystem: string): (ls: seq<Listing>)
    requires Ordered(s, ms)
    ensures |ls| == |ms|
  {
    seq(|ms|, i requires 0 <= i < |ms| => ListingAt(s, ms, i, sectionNumber, bodySystem))
  }

  /** What `parse_section` returns for a page whose text is `text`. */
  function Parse(text: string, sectionNumber: string, bodySystem: string): (SectionIntro, seq<Listing>) {
    var ms := Headers(text, sectionNumber);
    HeadersOrdered(text, sectionNumber);
    (SectionIntro(sectionNumber, bodySystem, IntroText(text, ms), Config.SectionUrl(sectionNumber)),
     ListingsOf(text, ms, sectionNumber, bodySystem))
  }

  method ParseSection(text: string, sectionNumber: string, bodySystem: string)
    returns (sectionIntro: SectionIntro, listings: seq<Listing>)
    ensures (sectionIntro, listings) == Parse(text, sectionNumber, bodySystem)
  {
    var sectionPrefix := SectionPrefix(sectionNumber);
    var matches := ListingHeaders(text, sectionPrefix, 0);
    HeadersOrdered(text, sectionNumber);

    var introText: string;
    if matches != [] {
      introText := Strip(text[..matches[0].start]);
    } else {
      introText := Strip(text);
    }

    listings := ListingsFor(text, matches, sectionNumber, bodySystem);
    sectionIntro := SectionIntro(sectionNumber, bodySystem, introText, Config.SectionUrl(sectionNumber));
    assert introText == IntroText(text, matches);
  }

  /** The loop over the matches. */
  method ListingsFor(text: string, matches: seq<HeaderMatch>, sectionNumber: string, bodySystem: string)
    returns (listings: seq<Listing>)
    requires Ordered(text, matches)
    ensures listings == ListingsOf(text, matches, sectionNumber, bodySystem)
  {
    ghost var all := ListingsOf(text, matches, sectionNumber, bodySystem);
    listings := [];
    for i := 0 to |matches|
      invariant listings == all[..i]
    {
      var listing := ListingFor(text, matches, i, sectionNumber, bodySystem);
      ListingsOfAt(text, matches, i, sectionNumber, bodySystem);
      SnocPrefix(all, i, listing);
      listings := listings + [listing];
    }
    assert all[..|matches|] == all;
  }

  lemma ListingsOfAt(s: string, ms: seq<HeaderMatch>, i: nat, sectionNumber: string, bodySystem: string)
    requires Ordered(s, ms) && i < |ms|
    ensures ListingsOf(s, ms, sectionNumber, bodySystem)[i] == ListingAt(s, ms, i, sectionNumber, bodySystem)
  {
  }

  lemma SnocPrefix<T>(all: seq<T>, i: nat, x: T)
    requires i < |all| && all[i] == x
    ensures all[..i] + [x] == all[..i + 1]
  {
  }

  /** The body of the loop over matches. */
  method ListingFor(text: string, matches: seq<HeaderMatch>, i: nat, sectionNumber: string, bodySystem: string)
    returns (listing: Listing)
    requires Ordered(text, matches) && i < |matches|
    ensures listing == ListingAt(text, matches, i, sectionNumber, bodySystem)
  {
    var m := matches[i];
    var listingNumber := text[m.start..m.numberEnd];
    var titleText := Strip(text[m.titleStart..m.end]);
    var start := m.start;
    var end := if i + 1 < |matches| then matches[i + 1].start else |text|;
    var fullText := Strip(text[start..end]);
    var titleLine := listingNumber + " " + titleText;
    var remaining := Strip(Slice(fullText, |titleLine|, |fullText|));
    var criteriaSummary := Strip(Slice(remaining, 0, SummaryCap));
    if |remaining| > SummaryCap {
      criteriaSummary := criteriaSummary + "...";
    }
    listing := Listing(listingNumber, titleText, bodySystem, sectionNumber, fullText, criteriaSummary,
                       Config.SectionUrl(sectionNumber), None, None);
  }

  // ---------------------------------------------------------------------
  // Properties of the split

  /** The introduction is the stripped text before the first listing
      header, and no header starts before that point; without headers it
      is the whole stripped text. */
  lemma IntroSpec(text: string, sectionNumber: string, bodySystem: string)
    ensures var ms := Headers(text, sectionNumber);
      var cut := FirstStart(text, ms);
      && cut <= |text|
      && Parse(text, sectionNumber, bodySystem).0.introText == Strip(text[..cut])
      && (forall p: nat :: p < cut ==> ListingHeaderAt(text, SectionPrefix(sectionNumber), p).None?)
      && Parse(text, sectionNumber, bodySystem).0.sourceUrl == Config.SectionUrl(sectionNumber)
  {
    var ms := Headers(text, sectionNumber);
    HeadersOrdered(text, sectionNumber);
    ScanLeftmost(text, SectionPrefix(sectionNumber), 0);
    if ms == [] {
      assert text[..|text|] == text;
    }
  }

  /** The unstripped text of listings `i` onwards. */
  function RawFrom(s: string, ms: seq<HeaderMatch>, i: nat): string
    requires Ordered(s, ms)
    decreases |ms| - i
  {
    if i >= |ms| then "" else s[ms[i].start..PieceEnd(s, ms, i)] + RawFrom(s, ms, i + 1)
  }

  /** The listings' pieces are contiguous: from header `i` on they make up
      the rest of the text. */
  lemma {:induction false} RawFromCovers(s: string, ms: seq<HeaderMatch>, i: nat)
    requires Ordered(s, ms) && i < |ms|
    ensures RawFrom(s, ms, i) == s[ms[i].start..]
    decreases |ms| - i
  {
    if i + 1 < |ms| {
      RawFromCovers(s, ms, i + 1);
      assert ms[i].start < ms[i].end <= ms[i + 1].start;
      assert s[ms[i].start..ms[i + 1].start] + s[ms[i + 1].start..] == s[ms[i].start..];
    }
  }

  /** The introduction's text and the listings' texts, before stripping,
      are the whole page text cut at the headers. */
  lemma PiecesCoverText(text: string, sectionNumber: string)
    ensures Ordered(text, Headers(text, sectionNumber))
    ensures var ms := Headers(text, sectionNumber);
      ms != [] ==> text[..ms[0].start] + RawFrom(text, ms, 0) == text
  {
    HeadersOrdered(text, sectionNumber);
    var ms := Headers(text, sectionNumber);
    if ms != [] {
      RawFromCovers(text, ms, 0);
    }
  }

  /** What a reported header match says about the text under it. */
  lemma MatchShape(s: string, prefix: string, i: nat)
    requires i < |ListingHeaders(s, prefix, 0)|
    ensures var m := ListingHeaders(s, prefix, 0)[i];
      && WellFormedMatch(s, m)
      && m.numberEnd == m.start + |prefix| + 3
      && s[m.start..m.start + |prefix|] == prefix && s[m.start + |prefix|] == '.'
      && IsDigit(s[m.start + |prefix| + 1]) && IsDigit(s[m.start + |prefix| + 2])
      && 'A' <= s[m.titleStart] <= 'Z'
  {
    var m := ListingHeaders(s, prefix, 0)[i];
    ScanMatches(s, prefix, 0);
    assert m in ListingHeaders(s, prefix, 0);
    assert ListingHeaderAt(s, prefix, m.start) == Some(m);
  }

  /** A stripped piece of text that starts with a non-blank character
      keeps its start, up to any later non-blank character. */
  lemma StripKeepsFront(piece: string, k: nat)
    requires k < |piece| && !IsSpace(piece[0]) && !IsSpace(piece[k])
    ensures k < |Strip(piece)| && Strip(piece)[..k + 1] == piece[..k + 1]
  {
    assert LeadingSpace(piece) == 0;
    StripSpec(piece);
    var r := Strip(piece);
    assert r != [];
    assert r == piece[..|r|];
  }

  /** Each listing's number is the section prefix, a dot and two digits;
      its full text begins with that number; its title begins with a
      capital letter; and it links to its section's page. */
  lemma ListingShape(text: string, sectionNumber: string, bodySystem: string, i: nat)
    requires sectionNumber != [] ==> !IsSpace(sectionNumber[0])
    requires i < |Parse(text, sectionNumber, bodySystem).1|
    ensures var l := Parse(text, sectionNumber, bodySystem).1[i];
      var prefix := SectionPrefix(sectionNumber);
      && |l.listingNumber| == |prefix| + 3
      && l.listingNumber[..|prefix|] == prefix && l.listingNumber[|prefix|] == '.'
      && IsDigit(l.listingNumber[|prefix| + 1]) && IsDigit(l.listingNumber[|prefix| + 2])
      && |l.listingNumber| <= |l.fullText| && l.fullText[..|l.listingNumber|] == l.listingNumber
      && l.title != [] && 'A' <= l.title[0] <= 'Z'
      && l.sourceUrl == Config.SectionUrl(sectionNumber)
      && l.bodySystem == bodySystem && l.sectionNumber == sectionNumber
  {
    HeadersOrdered(text, sectionNumber);
    var ms := Headers(text, sectionNumber);
    assert Parse(text, sectionNumber, bodySystem).1[i] == ListingAt(text, ms, i, sectionNumber, bodySystem);
    assert SectionPrefix(sectionNumber) != [] ==> SectionPrefix(sectionNumber)[0] == sectionNumber[0];
    ListingAtShape(text, SectionPrefix(sectionNumber), ms, i, sectionNumber, bodySystem);
  }

  lemma ListingAtShape(text: string, prefix: string, ms: seq<HeaderMatch>, i: nat,
                       sectionNumber: string, bodySystem: string)
    requires prefix != [] ==> !IsSpace(prefix[0])
    requires ms == ListingHeaders(text, prefix, 0) && Ordered(text, ms) && i < |ms|
    ensures var l := ListingAt(text, ms, i, sectionNumber, bodySystem);
      && |l.listingNumber| == |prefix| + 3
      && l.listingNumber[..|prefix|] == prefix && l.listingNumber[|prefix|] == '.'
      && IsDigit(l.listingNumber[|prefix| + 1]) && IsDigit(l.listingNumber[|prefix| + 2])
      && |l.listingNumber| <= |l.fullText| && l.fullText[..|l.listingNumber|] == l.listingNumber
      && l.title != [] && 'A' <= l.title[0] <= 'Z'
      && l.sourceUrl == Config.SectionUrl(sectionNumber)
      && l.bodySystem == bodySystem && l.sectionNumber == sectionNumber
  {
    HeaderFacts(text, prefix, ms, i);
  }

  /** The facts behind `ListingAtShape`, on the text itself. */
  lemma HeaderFacts(text: string, prefix: string, ms: seq<HeaderMatch>, i: nat)
    requires prefix != [] ==> !IsSpace(prefix[0])
    requires ms == ListingHeaders(text, prefix, 0) && Ordered(text, ms) && i < |ms|
    ensures var m := ms[i];
      var number := text[m.start..m.numberEnd];
      var full := Strip(text[m.start..PieceEnd(text, ms, i)]);
      var title := Strip(text[m.titleStart..m.end]);
      && |number| == |prefix| + 3
      && number[..|prefix|] == prefix && number[|prefix|] == '.'
      && IsDigit(number[|prefix| + 1]) && IsDigit(number[|prefix| + 2])
      && |number| <= |full| && full[..|number|] == number
      && title != [] && 'A' <= title[0] <= 'Z'
  {
    HeaderNumber(text, prefix, ms, i);
    HeaderFullText(text, prefix, ms, i);
    HeaderTitle(text, prefix, ms, i);
  }

  lemma HeaderNumber(text: string, prefix: string, ms: seq<HeaderMatch>, i: nat)
    requires ms == ListingHeaders(text, prefix, 0) && Ordered(text, ms) && i < |ms|
    ensures var m := ms[i];
      var number := text[m.start..m.numberEnd];
      && |number| == |prefix| + 3
      && number[..|prefix|] == prefix && number[|prefix|] == '.'
      && IsDigit(number[|prefix| + 1]) && IsDigit(number[|prefix| + 2])
  {
    MatchShape(text, prefix, i);
    var m := ms[i];
    var number := text[m.start..m.numberEnd];
    assert number[..|prefix|] == text[m.start..m.start + |prefix|];
  }

  lemma HeaderFullText(text: string, prefix: string, ms: seq<HeaderMatch>, i: nat)
    requires prefix != [] ==> !IsSpace(prefix[0])
    requires ms == ListingHeaders(text, prefix, 0) && Ordered(text, ms) && i < |ms|
    ensures var m := ms[i];
      var number := text[m.start..m.numberEnd];
      var full := Strip(text[m.start..PieceEnd(text, ms, i)]);
      |number| <= |full| && full[..|number|] == number
  {
    MatchShape(text, prefix, i);
    PieceFront(text, prefix, ms[i], PieceEnd(text, ms, i));
  }

  /** A listing's text, stripped, still begins with the listing number. */
  lemma PieceFront(text: string, prefix: string, m: HeaderMatch, e: nat)
    requires prefix != [] ==> !IsSpace(prefix[0])
    requires WellFormedMatch(text, m) && m.end <= e <= |text|
    requires m.numberEnd == m.start + |prefix| + 3
    requires text[m.start..m.start + |prefix|] == prefix && text[m.start + |prefix|] == '.'
    requires 'A' <= text[m.titleStart] <= 'Z'
    ensures var number := text[m.start..m.numberEnd];
      var full := Strip(text[m.start..e]);
      |number| <= |full| && full[..|number|] == number
  {
    var piece := text[m.start..e];
    var k := m.titleStart - m.start;
    assert piece[k] == text[m.titleStart];
    assert !IsSpace(piece[0]) by {
      assert piece[0] == text[m.start];
      if |prefix| > 0 {
        assert text[m.start..m.start + |prefix|][0] == prefix[0];
      }
    }
    StripKeepsFront(piece, k);
    var number := text[m.start..m.numberEnd];
    assert number == piece[..|number|];
    assert Strip(piece)[..|number|] == Strip(piece)[..k + 1][..|number|];
  }

  lemma HeaderTitle(text: string, prefix: string, ms: seq<HeaderMatch>, i: nat)
    requires ms == ListingHeaders(text, prefix, 0) && Ordered(text, ms) && i < |ms|
    ensures var m := ms[i];
      var title := Strip(text[m.titleStart..m.end]);
      title != [] && 'A' <= title[0] <= 'Z'
  {
    MatchShape(text, prefix, i);
    var m := ms[i];
    var titleRaw := text[m.titleStart..m.end];
    assert titleRaw[0] == text[m.titleStart];
    StripKeepsFront(titleRaw, 0);
  }
}
