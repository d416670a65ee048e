/** Prompt assembly (`build_claude_prompt`): the retrieved documents are
    split into listings, section introductions and Section 2.00 subsections;
    only the subsections relevant to the retrieved 2.xx listings are kept as
    evaluation guidelines; and the user message is the newline-joined run of
    listing blocks, guideline blocks and the client's findings. */
module Prompt {
  import opened Docs
  import opened Ranking
  import opened Text
  import Config

  /** One chat message: a role and its text. */
  datatype Message = Message(role: string, content: string)

  /** Appended to guideline text cut at its length cap. */
  const Marker: string := "\n[... truncated for brevity ...]"

  /** The visual-disorders subsection keeps its calculation tables. */
  const VisualCap: nat := 20000
  const DefaultCap: nat := 3000

  const ListingsHeader: string := "BLUE BOOK LISTINGS (retrieved from database):"
  const GuidelinesHeader: string := "EVALUATION GUIDELINES (from relevant body system sections):"
  const FindingsHeader: string := "CLIENT'S MEDICAL FINDINGS:"
  const Closing: string := "Please analyze these medical findings against the Blue Book listings above."

  /** The five Section 2.00 subsection topics. */
  const AllTopics: set<string> := {"visual_disorders", "hearing_loss", "vestibular", "speech", "general"}

  // ---------------------------------------------------------------------
  // Sorting the retrieved documents

  /** `doc_type == "section_intro"` */
  predicate IsIntro(d: ScoredDoc) {
    "doc_type" in d.metadata && d.metadata["doc_type"] == "section_intro"
  }

  /** The subsection topic, `""` when absent. */
  function Topic(d: ScoredDoc): string {
    Get(d.metadata, "subsection_topic", "")
  }

  /** A Section 2.00 subsection stored as a listing: it has a topic. */
  predicate IsSubsectionDoc(d: ScoredDoc) {
    !IsIntro(d) && Topic(d) != ""
  }

  predicate IsListingDoc(d: ScoredDoc) {
    !IsIntro(d) && Topic(d) == ""
  }

  /** The listing numbers of the retrieved listings, `""` where missing. */
  function ListingNumbers(listings: seq<ScoredDoc>): set<string> {
    set d | d in listings :: Get(d.metadata, "listing_number", "")
  }

  predicate HasVision(nums: set<string>) {
    "2.02" in nums || "2.03" in nums || "2.04" in nums
  }

  predicate HasHearing(nums: set<string>) {
    "2.10" in nums || "2.11" in nums
  }

  predicate HasVestibular(nums: set<string>) {
    "2.07" in nums
  }

  predicate HasSpeech(nums: set<string>) {
    "2.09" in nums
  }

  predicate HasSpecific(nums: set<string>) {
    HasVision(nums) || HasHearing(nums) || HasVestibular(nums) || HasSpeech(nums)
  }

  /** The subsection topics to keep, given the retrieved listing numbers:
      general guidance always; each specific topic when one of its listings
      was retrieved; every topic when no 2.xx listing of any kind was. */
  function RelevantTopics(nums: set<string>): (topics: set<string>)
    ensures topics <= AllTopics
    ensures "general" in topics
    ensures "visual_disorders" in topics <==> HasVision(nums) || !HasSpecific(nums)
    ensures "hearing_loss" in topics <==> HasHearing(nums) || !HasSpecific(nums)
    ensures "vestibular" in topics <==> HasVestibular(nums) || !HasSpecific(nums)
    ensures "speech" in topics <==> HasSpeech(nums) || !HasSpecific(nums)
  {
    if !HasSpecific(nums) then AllTopics
    else
      {"general"}
      + (if HasVision(nums) then {"visual_disorders"} else {})
      + (if HasHearing(nums) then {"hearing_loss"} else {})
      + (if HasVestibular(nums) then {"vestibular"} else {})
      + (if HasSpeech(nums) then {"speech"} else {})
  }

  /** The subsections whose topic is among `topics`, in order. */
  function WithTopicIn(s: seq<ScoredDoc>, topics: set<string>): (r: seq<ScoredDoc>)
    ensures |r| <= |s|
    ensures forall x :: x in r <==> x in s && Topic(x) in topics
  {
    if s == [] then []
    else
      var init := s[..|s| - 1];
      var last := s[|s| - 1];
      assert s == init + [last];
      WithTopicIn(init, topics) + (if Topic(last) in topics then [last] else [])
  }

  function Listings(docs: seq<ScoredDoc>): seq<ScoredDoc> {
    Filter(docs, IsListingDoc)
  }

  /** The section introductions, then the relevant subsections. */
  function Guidelines(docs: seq<ScoredDoc>): seq<ScoredDoc> {
    Filter(docs, IsIntro)
    + WithTopicIn(Filter(docs, IsSubsectionDoc), RelevantTopics(ListingNumbers(Listings(docs))))
  }

  // ---------------------------------------------------------------------
  // The user message

  /** `"-" * n` */
  function Dashes(n: nat): (r: string)
    ensures |r| == n && forall i :: 0 <= i < n ==> r[i] == '-'
  {
    seq(n, _ => '-')
  }

  function Cap(topic: string): nat {
    if topic == "visual_disorders" then VisualCap else DefaultCap
  }

  /** Guideline text cut to its topic's cap, with the marker appended when
      anything was cut. */
  function Truncate(text: string, topic: string): (r: string)
    ensures |text| <= Cap(topic) ==> r == text
    ensures |text| > Cap(topic) ==>
              |r| == Cap(topic) + |Marker| && r[..Cap(topic)] == text[..Cap(topic)] && r[Cap(topic)..] == Marker
  {
    if |text| > Cap(topic) then text[..Cap(topic)] + Marker else text
  }

  function ListingEntry(d: ScoredDoc): seq<string> {
    var url := Get(d.metadata, "source_url", "");
    ["Listing " + Get(d.metadata, "listing_number", "N/A") + " - " + Get(d.metadata, "body_system", "Unknown") + " System"]
    + (if url != "" then ["Source: " + url] else [])
    + [d.text, Dashes(40)]
  }

  function ListingEntries(ls: seq<ScoredDoc>): seq<string> {
    if ls == [] then [] else ListingEntries(ls[..|ls| - 1]) + ListingEntry(ls[|ls| - 1])
  }

  function ListingBlock(ls: seq<ScoredDoc>): seq<string> {
    if ls == [] then [] else [ListingsHeader, Dashes(60)] + ListingEntries(ls) + [""]
  }

  /** `meta.get("listing_number", meta.get("section_number", "N/A"))` */
  function GuidelineLabel(d: ScoredDoc): string {
    Get(d.metadata, "listing_number", Get(d.metadata, "section_number", "N/A"))
  }

  function GuidelineEntry(d: ScoredDoc): seq<string> {
    ["Section " + GuidelineLabel(d) + " - " + Get(d.metadata, "body_system", "Unknown"),
     Truncate(d.text, Topic(d)),
     Dashes(40)]
  }

  function GuidelineEntries(gs: seq<ScoredDoc>): seq<string> {
    if gs == [] then [] else GuidelineEntries(gs[..|gs| - 1]) + GuidelineEntry(gs[|gs| - 1])
  }

  function GuidelineBlock(gs: seq<ScoredDoc>): seq<string> {
    if gs == [] then [] else [GuidelinesHeader, Dashes(60)] + GuidelineEntries(gs) + [""]
  }

  function FindingsBlock(findings: string): seq<string> {
    [FindingsHeader, Dashes(60), findings, Dashes(60), "", Closing]
  }

  function UserParts(findings: string, docs: seq<ScoredDoc>): seq<string> {
    ListingBlock(Listings(docs)) + GuidelineBlock(Guidelines(docs)) + FindingsBlock(findings)
  }

  /** What `build_claude_prompt(findings, docs)` returns. */
  function PromptMessages(findings: string, docs: seq<ScoredDoc>): seq<Message> {
    [Message("system", Config.SystemPrompt), Message("user", Join(UserParts(findings, docs), "\n"))]
  }

  method BuildClaudePrompt(medicalFindings: string, retrievedDocs: seq<ScoredDoc>)
    returns (messages: seq<Message>)
    ensures messages == PromptMessages(medicalFindings, retrievedDocs)
  {
    var listings, sectionIntros, subsectionDocs := Classify(retrievedDocs);
    if subsectionDocs != [] {
      var relevantTopics := Relevant(listings);
      var kept := KeepRelevant(subsectionDocs, relevantTopics);
      sectionIntros := sectionIntros + kept;
    } else {
      assert WithTopicIn(subsectionDocs, RelevantTopics(ListingNumbers(listings))) == [];
    }
    assert sectionIntros == Guidelines(retrievedDocs);
    var userParts: seq<string> := [];
    if listings != [] {
      var lines := ListingLines(listings);
      var block := [ListingsHeader, Dashes(60)] + lines + [""];
      userParts := userParts + block;
    }
    assert userParts == ListingBlock(listings);
    ghost var listingPart := userParts;
    if sectionIntros != [] {
      var lines := GuidelineLines(sectionIntros);
      var block := [GuidelinesHeader, Dashes(60)] + lines + [""];
      assert block == GuidelineBlock(sectionIntros);
      userParts := userParts + block;
    } else {
      assert userParts == listingPart + GuidelineBlock(sectionIntros);
    }
    userParts := userParts + [FindingsHeader, Dashes(60), medicalFindings, Dashes(60), "", Closing];
    assert userParts == UserParts(medicalFindings, retrievedDocs);
    messages := [Message("system", Config.SystemPrompt), Message("user", Join(userParts, "\n"))];
  }

  /** The first loop: each document goes to exactly one of the three lists,
      in retrieval order. */
  method Classify(retrievedDocs: seq<ScoredDoc>)
    returns (listings: seq<ScoredDoc>, sectionIntros: seq<ScoredDoc>, subsectionDocs: seq<ScoredDoc>)
    ensures listings == Filter(retrievedDocs, IsListingDoc)
    ensures sectionIntros == Filter(retrievedDocs, IsIntro)
    ensures subsectionDocs == Filter(retrievedDocs, IsSubsectionDoc)
  {
    listings, sectionIntros, subsectionDocs := [], [], [];
    var i := 0;
    while i < |retrievedDocs|
      invariant 0 <= i <= |retrievedDocs|
      invariant listings == Filter(retrievedDocs[..i], IsListingDoc)
      invariant sectionIntros == Filter(retrievedDocs[..i], IsIntro)
      invariant subsectionDocs == Filter(retrievedDocs[..i], IsSubsectionDoc)
    {
      var doc := retrievedDocs[i];
      assert retrievedDocs[..i + 1][..i] == retrievedDocs[..i];
      if "doc_type" in doc.metadata && doc.metadata["doc_type"] == "section_intro" {
        sectionIntros := sectionIntros + [doc];
      } else if Get(doc.metadata, "subsection_topic", "") != "" {
        subsectionDocs := subsectionDocs + [doc];
      } else {
        listings := listings + [doc];
      }
      i := i + 1;
    }
    assert retrievedDocs[..|retrievedDocs|] == retrievedDocs;
  }

  /** The subsections whose topic is relevant, in order. */
  method KeepRelevant(subsectionDocs: seq<ScoredDoc>, relevantTopics: set<string>)
    returns (kept: seq<ScoredDoc>)
    ensures kept == WithTopicIn(subsectionDocs, relevantTopics)
  {
    kept := [];
    var k := 0;
    while k < |subsectionDocs|
      invariant 0 <= k <= |subsectionDocs|
      invariant kept == WithTopicIn(subsectionDocs[..k], relevantTopics)
    {
      var doc := subsectionDocs[k];
      assert subsectionDocs[..k + 1][..k] == subsectionDocs[..k];
      if Get(doc.metadata, "subsection_topic", "") in relevantTopics {
        kept := kept + [doc];
      }
      k := k + 1;
    }
    assert subsectionDocs[..|subsectionDocs|] == subsectionDocs;
  }

  /** The lines of the listings block, listing by listing. */
  method ListingLines(listings: seq<ScoredDoc>) returns (lines: seq<string>)
    ensures lines == ListingEntries(listings)
  {
    lines := [];
    var j := 0;
    while j < |listings|
      invariant 0 <= j <= |listings|
      invariant lines == ListingEntries(listings[..j])
    {
      ListingEntriesPrefix(listings, j);
      lines := AppendListing(lines, listings[j]);
      j := j + 1;
    }
    assert listings[..|listings|] == listings;
  }

  /** The body of the loop over listings: one listing's lines. */
  method AppendListing(lines: seq<string>, doc: ScoredDoc) returns (lines': seq<string>)
    ensures lines' == lines + ListingEntry(doc)
  {
    var meta := doc.metadata;
    var sourceUrl := Get(meta, "source_url", "");
    lines' := lines + ["Listing " + Get(meta, "listing_number", "N/A") + " - " + Get(meta, "body_system", "Unknown") + " System"];
    if sourceUrl != "" {
      lines' := lines' + ["Source: " + sourceUrl];
    }
    lines' := lines' + [doc.text];
    lines' := lines' + [Dashes(40)];
  }

  lemma ListingEntriesPrefix(ls: seq<ScoredDoc>, j: nat)
    requires j < |ls|
    ensures ListingEntries(ls[..j + 1]) == ListingEntries(ls[..j]) + ListingEntry(ls[j])
  {
    assert ls[..j + 1][..j] == ls[..j];
  }

  /** The lines of the guidelines block, each text cut to its cap. */
  method GuidelineLines(sectionIntros: seq<ScoredDoc>) returns (lines: seq<string>)
    ensures lines == GuidelineEntries(sectionIntros)
  {
    lines := [];
    var j := 0;
    while j < |sectionIntros|
      invariant 0 <= j <= |sectionIntros|
      invariant lines == GuidelineEntries(sectionIntros[..j])
    {
      var doc := sectionIntros[j];
      var meta := doc.metadata;
      var subsectionTopic := Get(meta, "subsection_topic", "");
      var sectionLabel := Get(meta, "listing_number", Get(meta, "section_number", "N/A"));
      assert sectionIntros[..j + 1][..j] == sectionIntros[..j];
      lines := lines + ["Section " + sectionLabel + " - " + Get(meta, "body_system", "Unknown")];
      var introText := doc.text;
      var maxLen: nat;
      if subsectionTopic == "visual_disorders" {
        maxLen := VisualCap;
      } else {
        maxLen := DefaultCap;
      }
      if |introText| > maxLen {
        introText := introText[..maxLen] + Marker;
      }
      lines := lines + [introText];
      lines := lines + [Dashes(40)];
      j := j + 1;
    }
    assert sectionIntros[..|sectionIntros|] == sectionIntros;
  }

  /** The relevant topics, computed as the source does: the listing numbers
      first, then one flag per topic. */
  method Relevant(listings: seq<ScoredDoc>) returns (relevantTopics: set<string>)
    ensures relevantTopics == RelevantTopics(ListingNumbers(listings))
  {
    var listingNums: set<string> := {};
    var j := 0;
    while j < |listings|
      invariant 0 <= j <= |listings|
      invariant listingNums == ListingNumbers(listings[..j])
    {
      assert listings[..j + 1] == listings[..j] + [listings[j]];
      listingNums := listingNums + {Get(listings[j].metadata, "listing_number", "")};
      j := j + 1;
    }
    assert listings[..|listings|] == listings;
    var hasVision := "2.02" in listingNums || "2.03" in listingNums || "2.04" in listingNums;
    var hasHearing := "2.10" in listingNums || "2.11" in listingNums;
    var hasVestibular := "2.07" in listingNums;
    var hasSpeech := "2.09" in listingNums;
    relevantTopics := {"general"};
    if hasVision {
      relevantTopics := relevantTopics + {"visual_disorders"};
    }
    if hasHearing {
      relevantTopics := relevantTopics + {"hearing_loss"};
    }
    if hasVestibular {
      relevantTopics := relevantTopics + {"vestibular"};
    }
    if hasSpeech {
      relevantTopics := relevantTopics + {"speech"};
    }
    if !(hasVision || hasHearing || hasVestibular || hasSpeech) {
      relevantTopics := {"visual_disorders", "hearing_loss", "vestibular", "speech", "general"};
    }
  }

  // ---------------------------------------------------------------------
  // Properties

  /** Every retrieved document lands in exactly one of the three lists. */
  lemma {:induction false} ClassifyPartition(docs: seq<ScoredDoc>)
    ensures multiset(docs) ==
            multiset(Filter(docs, IsIntro)) + multiset(Filter(docs, IsSubsectionDoc)) + multiset(Listings(docs))
  {
    if docs != [] {
      var init := docs[..|docs| - 1];
      assert docs == init + [docs[|docs| - 1]];
      ClassifyPartition(init);
    }
  }

  /** A document is a guideline exactly when it is a section introduction,
      or a subsection whose topic is relevant to the retrieved listings. */
  lemma GuidelinesSpec(docs: seq<ScoredDoc>)
    ensures forall d :: d in Guidelines(docs) <==>
              d in docs && (IsIntro(d) || (IsSubsectionDoc(d) && Topic(d) in RelevantTopics(ListingNumbers(Listings(docs)))))
  {
  }

  /** A vision case without hearing listings never receives the hearing
      subsection, and a hearing case without vision listings never receives
      the vision subsection. */
  lemma VisionAndHearingKeptApart(docs: seq<ScoredDoc>)
    ensures HasVision(ListingNumbers(Listings(docs))) && !HasHearing(ListingNumbers(Listings(docs))) ==>
              forall d :: d in Guidelines(docs) && IsSubsectionDoc(d) ==> Topic(d) != "hearing_loss"
    ensures HasHearing(ListingNumbers(Listings(docs))) && !HasVision(ListingNumbers(Listings(docs))) ==>
              forall d :: d in Guidelines(docs) && IsSubsectionDoc(d) ==> Topic(d) != "visual_disorders"
  {
    GuidelinesSpec(docs);
  }

  /** Without any 2.xx listing to go by, every subsection is kept. */
  lemma NoSpecificListingKeepsAll(docs: seq<ScoredDoc>)
    requires !HasSpecific(ListingNumbers(Listings(docs)))
    ensures forall d :: d in docs && IsSubsectionDoc(d) && Topic(d) in AllTopics ==> d in Guidelines(docs)
  {
    GuidelinesSpec(docs);
  }

  /** Cutting twice cuts no more than cutting once. */
  lemma TruncateIdempotent(text: string, topic: string)
    ensures Truncate(Truncate(text, topic), topic) == Truncate(text, topic)
  {
    var r := Truncate(text, topic);
    if |text| > Cap(topic) {
      assert r == r[..Cap(topic)] + r[Cap(topic)..];
    }
  }

  lemma {:induction false} ListingEntriesHaveText(ls: seq<ScoredDoc>)
    ensures forall d :: d in ls ==> d.text in ListingEntries(ls)
  {
    if ls != [] {
      var init := ls[..|ls| - 1];
      assert ls == init + [ls[|ls| - 1]];
      ListingEntriesHaveText(init);
    }
  }

  lemma {:induction false} GuidelineEntriesHaveText(gs: seq<ScoredDoc>)
    ensures forall d :: d in gs ==> Truncate(d.text, Topic(d)) in GuidelineEntries(gs)
  {
    if gs != [] {
      var init := gs[..|gs| - 1];
      assert gs == init + [gs[|gs| - 1]];
      GuidelineEntriesHaveText(init);
    }
  }

  /** A line of the user parts occurs in the user message. */
  lemma PartInContent(findings: string, docs: seq<ScoredDoc>, line: string)
    requires line in UserParts(findings, docs)
    ensures Contains(PromptMessages(findings, docs)[1].content, line)
  {
    var parts := UserParts(findings, docs);
    var k :| 0 <= k < |parts| && parts[k] == line;
    JoinContainsPart(parts, "\n", k);
  }

  /** The request is the fixed system message followed by one user message
      that carries the findings verbatim and ends with the findings block. */
  lemma PromptCarriesFindings(findings: string, docs: seq<ScoredDoc>)
    ensures |PromptMessages(findings, docs)| == 2
    ensures PromptMessages(findings, docs)[0] == Message("system", Config.SystemPrompt)
    ensures PromptMessages(findings, docs)[1].role == "user"
    ensures Contains(PromptMessages(findings, docs)[1].content, findings)
    ensures exists pre :: PromptMessages(findings, docs)[1].content == pre + Join(FindingsBlock(findings), "\n")
  {
    var before := ListingBlock(Listings(docs)) + GuidelineBlock(Guidelines(docs));
    assert UserParts(findings, docs) == before + FindingsBlock(findings);
    FindingsLine(before, findings);
    PartInContent(findings, docs, findings);
    JoinEndsWith(before, FindingsBlock(findings));
  }

  lemma FindingsLine(before: seq<string>, findings: string)
    ensures findings in before + FindingsBlock(findings)
  {
    assert (before + FindingsBlock(findings))[|before| + 2] == findings;
  }

  /** Joined lines end with the join of their last block. */
  lemma JoinEndsWith(before: seq<string>, block: seq<string>)
    requires block != []
    ensures exists pre :: Join(before + block, "\n") == pre + Join(block, "\n")
  {
    if before == [] {
      assert before + block == block;
      assert Join(before + block, "\n") == [] + Join(block, "\n");
    } else {
      JoinAppend(before, block, "\n");
      assert Join(before + block, "\n") == (Join(before, "\n") + "\n") + Join(block, "\n");
    }
  }

  /** Every retrieved listing's text, and every kept guideline's text as cut
      to its cap, reaches the user message. */
  lemma RetrievedTextsIncluded(findings: string, docs: seq<ScoredDoc>)
    ensures forall d :: d in docs && IsListingDoc(d) ==>
              Contains(PromptMessages(findings, docs)[1].content, d.text)
    ensures forall d :: d in Guidelines(docs) ==>
              Contains(PromptMessages(findings, docs)[1].content, Truncate(d.text, Topic(d)))
  {
    var ls := Listings(docs);
    var gs := Guidelines(docs);
    ListingEntriesHaveText(ls);
    GuidelineEntriesHaveText(gs);
    forall d | d in docs && IsListingDoc(d)
      ensures Contains(PromptMessages(findings, docs)[1].content, d.text)
    {
      assert d in ls;
      assert d.text in ListingBlock(ls);
      PartInContent(findings, docs, d.text);
    }
    forall d | d in gs
      ensures Contains(PromptMessages(findings, docs)[1].content, Truncate(d.text, Topic(d)))
    {
      assert Truncate(d.text, Topic(d)) in GuidelineBlock(gs);
      PartInContent(findings, docs, Truncate(d.text, Topic(d)));
    }
  }
}

