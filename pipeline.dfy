/** The pipeline's entry point: check the findings, retrieve listings,
    ask the language model, validate its answer, and report the matched
    listings and their source pages. The vector store and the language
    model are parameters. */
module Pipeline {
  import opened Wrappers
  import opened Text
  import opened Docs
  import Config
  import Retrieval
  import Prompt
  import Validation
  import Listings

  /** The language model: it answers a conversation with its reply text,
      or fails with a message for the user. */
  type Generator = seq<Prompt.Message> -> Result<string, string>

  /** One entry of the `sources` dictionary, keyed by its listing number. */
  datatype SourceLink = SourceLink(listingNumber: string, bodySystem: string, sourceUrl: string)

  /** The `status` field: "error", "no_results" or "success". */
  datatype Status = Failed | NoResults | Succeeded

  /** The result dictionary. Keys the source leaves out of a result are
      `None` here: only a successful result has `sources` and
      `validation_warnings`, only a failed one has `error`. */
  datatype AnalysisResult = AnalysisResult(
    status: Status,
    analysis: string,
    matchedListings: seq<string>,
    retrievedCount: nat,
    sources: Option<seq<SourceLink>>,
    validationWarnings: Option<seq<string>>,
    disclaimer: string,
    error: Option<string>)

  /** Findings shorter than this, once stripped, are refused. */
  const MinLength: nat := 20

  const EmptyError: string := "Medical findings text cannot be empty."
  const ShortError: string := "Please provide more detailed medical findings (at least a few sentences)."
  const NoResultsText: string := "No matching Blue Book listings were found for the provided medical findings."
  const ShortDisclaimer: string := "This is a research aid for attorneys. It does not constitute legal advice."
  const FullDisclaimer: string := ShortDisclaimer + " All analysis must be independently verified."
  const WarningHead: string := "\n\n---\n\U{26A0}\U{FE0F} **AUTOMATED VALIDATION FLAGS:**\n"

  /** The message reported when the store fails with `e`. */
  function SearchFailed(e: string): string {
    "Database search failed: " + e + ". Make sure you've run build_db.py first."
  }

  function ErrorResult(message: string, retrievedCount: nat): AnalysisResult {
    AnalysisResult(Failed, "", [], retrievedCount, None, None, "", Some(message))
  }

  // ---------------------------------------------------------------------
  // The warning block appended to the analysis

  function WarningLine(w: string): string {
    "- " + w + "\n"
  }

  function WarningLines(ws: seq<string>): string
    decreases |ws|
  {
    if ws == [] then "" else WarningLines(ws[..|ws| - 1]) + WarningLine(ws[|ws| - 1])
  }

  /** The analysis as returned: the model's text, followed by the warning
      block when there are warnings. */
  function WithWarnings(text: string, ws: seq<string>): string {
    if ws == [] then text else text + WarningHead + WarningLines(ws)
  }

  /** Every warning has its own line in the block. */
  lemma {:induction false} WarningLinesContain(ws: seq<string>, k: nat)
    requires k < |ws|
    ensures Contains(WarningLines(ws), WarningLine(ws[k]))
    decreases |ws|
  {
    var last := WarningLine(ws[|ws| - 1]);
    if k == |ws| - 1 {
      ContainsAt(last, last, 0);
      ContainsSuffix(WarningLines(ws[..|ws| - 1]), last, last);
    } else {
      assert ws[..|ws| - 1][k] == ws[k];
      WarningLinesContain(ws[..|ws| - 1], k);
      ContainsPrefix(WarningLines(ws[..|ws| - 1]), last, WarningLine(ws[k]));
    }
  }

  /** The model's text is kept whole at the front; it is returned unchanged
      exactly when there is nothing to flag, and otherwise every warning is
      listed after it. */
  lemma WithWarningsSpec(text: string, ws: seq<string>)
    ensures |text| <= |WithWarnings(text, ws)| && WithWarnings(text, ws)[..|text|] == text
    ensures WithWarnings(text, ws) == text <==> ws == []
    ensures forall k :: 0 <= k < |ws| ==> Contains(WithWarnings(text, ws), WarningLine(ws[k]))
  {
    if ws != [] {
      assert |WithWarnings(text, ws)| > |text|;
      forall k | 0 <= k < |ws|
        ensures Contains(WithWarnings(text, ws), WarningLine(ws[k]))
      {
        WarningLinesContain(ws, k);
        ContainsSuffix(text + WarningHead, WarningLines(ws), WarningLine(ws[k]));
      }
    }
  }

  // ---------------------------------------------------------------------
  // Source links

  /** The link a document would contribute, with the missing metadata keys
      read as empty strings. */
  function LinkOf(d: ScoredDoc): SourceLink {
    SourceLink(Get(d.metadata, "listing_number", ""), Get(d.metadata, "body_system", ""),
               Get(d.metadata, "source_url", ""))
  }

  /** A document contributes a link only when it has both a listing number
      and a source page. */
  predicate Qualifies(d: ScoredDoc) {
    LinkOf(d).listingNumber != "" && LinkOf(d).sourceUrl != ""
  }

  /** The keys of the `sources` dictionary, in insertion order. */
  function Numbers(links: seq<SourceLink>): (r: seq<string>)
    ensures |r| == |links|
    ensures forall j :: 0 <= j < |links| ==> r[j] == links[j].listingNumber
  {
    seq(|links|, j requires 0 <= j < |links| => links[j].listingNumber)
  }

  /** The `sources` dictionary's values, in insertion order: each qualifying
      document adds its link unless its listing number is already a key. */
  function Sources(docs: seq<ScoredDoc>): seq<SourceLink>
    decreases |docs|
  {
    if docs == [] then []
    else
      var prev := Sources(docs[..|docs| - 1]);
      var d := docs[|docs| - 1];
      if Qualifies(d) && LinkOf(d).listingNumber !in Numbers(prev) then prev + [LinkOf(d)] else prev
  }

  /** Every link has a listing number and a page, and no listing number is
      a key twice. */
  lemma {:induction false} SourcesWellFormed(docs: seq<ScoredDoc>)
    ensures forall j :: 0 <= j < |Sources(docs)| ==>
      Sources(docs)[j].listingNumber != "" && Sources(docs)[j].sourceUrl != ""
    ensures forall i, j :: 0 <= i < j < |Sources(docs)| ==>
      Sources(docs)[i].listingNumber != Sources(docs)[j].listingNumber
    decreases |docs|
  {
    if docs != [] {
      SourcesWellFormed(docs[..|docs| - 1]);
    }
  }

  /** Reference definition: the link of the first qualifying document
      with listing number `number`, scanning from the front. */
  function FirstLink(docs: seq<ScoredDoc>, number: string): (r: Option<SourceLink>)
    ensures r.Some? ==> r.value.listingNumber == number && number != "" && r.value.sourceUrl != ""
    decreases |docs|
  {
    if docs == [] then None
    else if Qualifies(docs[0]) && LinkOf(docs[0]).listingNumber == number then Some(LinkOf(docs[0]))
    else FirstLink(docs[1..], number)
  }

  /** A qualifying document always has a first link for its number. */
  lemma {:induction false} FirstLinkFound(docs: seq<ScoredDoc>, k: nat)
    requires k < |docs| && Qualifies(docs[k])
    ensures FirstLink(docs, LinkOf(docs[k]).listingNumber).Some?
    decreases k
  {
    if k > 0 && !(Qualifies(docs[0]) && LinkOf(docs[0]).listingNumber == LinkOf(docs[k]).listingNumber) {
      assert docs[1..][k - 1] == docs[k];
      FirstLinkFound(docs[1..], k - 1);
    }
  }

  /** Appending a document can only settle a number no earlier document
      settled. */
  lemma {:induction false} FirstLinkSnoc(docs: seq<ScoredDoc>, d: ScoredDoc, number: string)
    ensures FirstLink(docs + [d], number)
      == if FirstLink(docs, number).Some? then FirstLink(docs, number)
         else if Qualifies(d) && LinkOf(d).listingNumber == number then Some(LinkOf(d))
         else None
    decreases |docs|
  {
    if docs == [] {
      assert ([] + [d])[1..] == [];
    } else {
      assert (docs + [d])[1..] == docs[1..] + [d];
      FirstLinkSnoc(docs[1..], d, number);
    }
  }

  /** The dictionary agrees with the reference definition: its keys are
      exactly the numbers some qualifying document carries, and each value
      is the first such document's link. */
  lemma {:induction false} SourcesMatchFirstLinks(docs: seq<ScoredDoc>)
    ensures forall n :: n in Numbers(Sources(docs)) <==> FirstLink(docs, n).Some?
    ensures forall j :: 0 <= j < |Sources(docs)| ==>
      FirstLink(docs, Sources(docs)[j].listingNumber) == Some(Sources(docs)[j])
    decreases |docs|
  {
    if docs != [] {
      var init := docs[..|docs| - 1];
      var d := docs[|docs| - 1];
      assert docs == init + [d];
      SourcesMatchFirstLinks(init);
      var prev := Sources(init);
      forall n
        ensures FirstLink(docs, n)
          == if FirstLink(init, n).Some? then FirstLink(init, n)
             else if Qualifies(d) && LinkOf(d).listingNumber == n then Some(LinkOf(d))
             else None
      {
        FirstLinkSnoc(init, d, n);
      }
      forall n
        ensures n in Numbers(Sources(docs)) <==> FirstLink(docs, n).Some?
      {
        if Sources(docs) != prev {
          assert Numbers(Sources(docs)) == Numbers(prev) + [LinkOf(d).listingNumber];
        }
      }
      forall j | 0 <= j < |Sources(docs)|
        ensures FirstLink(docs, Sources(docs)[j].listingNumber) == Some(Sources(docs)[j])
      {
        if j < |prev| {
          assert Sources(docs)[j] == prev[j];
        } else {
          assert Numbers(prev)[..] == Numbers(prev);
        }
      }
    }
  }

  // ---------------------------------------------------------------------
  // The pipeline

  /** What `analyze_medical_findings` returns for these findings, given the
      store and the model. */
  function Analyze(medicalFindings: string, store: Retrieval.Store, generator: Generator): AnalysisResult {
    var findings := Strip(medicalFindings);
    if findings == [] then ErrorResult(EmptyError, 0)
    else if |findings| < MinLength then ErrorResult(ShortError, 0)
    else match Retrieval.Search(findings, Config.TopK, store)
      case Failure(e) => ErrorResult(SearchFailed(e), 0)
      case Success(docs) =>
        if docs == [] then
          AnalysisResult(NoResults, NoResultsText, [], 0, None, None, ShortDisclaimer, None)
        else match generator(Prompt.PromptMessages(findings, docs))
          case Failure(e) => ErrorResult(e, |docs|)
          case Success(text) => Answered(findings, docs, text)
  }

  /** The successful result for the model's reply `text`. */
  function Answered(findings: string, docs: seq<ScoredDoc>, text: string): AnalysisResult {
    var ws := Validation.Warnings(text, findings);
    var analysis := WithWarnings(text, ws);
    AnalysisResult(Succeeded, analysis, Listings.MatchedListings(analysis), |docs|,
                   Some(Sources(docs)), Some(ws), FullDisclaimer, None)
  }

  method AnalyzeMedicalFindings(medicalFindings: string, store: Retrieval.Store, generator: Generator)
    returns (result: AnalysisResult)
    ensures result == Analyze(medicalFindings, store, generator)
  {
    var findings := Strip(medicalFindings);
    if findings == [] {
      return ErrorResult(EmptyError, 0);
    }
    if |findings| < MinLength {
      return ErrorResult(ShortError, 0);
    }

    // Step 1: retrieval.
    var search := Retrieval.SearchBlueBook(findings, Config.TopK, store);
    if search.Failure? {
      return ErrorResult(SearchFailed(search.error), 0);
    }
    var retrievedDocs := search.value;
    if retrievedDocs == [] {
      return AnalysisResult(NoResults, NoResultsText, [], 0, None, None, ShortDisclaimer, None);
    }

    // Steps 2 and 3: the prompt and the model's answer.
    var messages := Prompt.BuildClaudePrompt(findings, retrievedDocs);
    var reply := generator(messages);
    if reply.Failure? {
      return ErrorResult(reply.error, |retrievedDocs|);
    }
    assert Analyze(medicalFindings, store, generator) == Answered(findings, retrievedDocs, reply.value);
    result := Respond(findings, retrievedDocs, reply.value);
  }

  /** Steps 4 to 6, once the model has answered. */
  method Respond(findings: string, retrievedDocs: seq<ScoredDoc>, reply: string)
    returns (result: AnalysisResult)
    ensures result == Answered(findings, retrievedDocs, reply)
  {
    var analysisText := reply;

    // Step 4: validation flags.
    var validationWarnings := Validation.ValidateAnalysis(analysisText, findings);
    if validationWarnings != [] {
      var warningBlock := WarningBlock(validationWarnings);
      analysisText := analysisText + warningBlock;
      assert reply + (WarningHead + WarningLines(validationWarnings))
        == reply + WarningHead + WarningLines(validationWarnings);
    }
    assert analysisText == WithWarnings(reply, validationWarnings);

    // Steps 5 and 6: listings mentioned and their source pages.
    var matchedListings := Listings.MatchedListings(analysisText);
    var sources := SourceLinks(retrievedDocs);
    return AnalysisResult(Succeeded, analysisText, matchedListings, |retrievedDocs|,
                          Some(sources), Some(validationWarnings), FullDisclaimer, None);
  }

  /** The block appended to a flagged analysis. */
  method WarningBlock(validationWarnings: seq<string>) returns (warningBlock: string)
    ensures warningBlock == WarningHead + WarningLines(validationWarnings)
  {
    warningBlock := WarningHead;
    for i := 0 to |validationWarnings|
      invariant warningBlock == WarningHead + WarningLines(validationWarnings[..i])
    {
      assert validationWarnings[..i + 1][..i] == validationWarnings[..i];
      warningBlock := warningBlock + "- " + validationWarnings[i] + "\n";
    }
    assert validationWarnings[..|validationWarnings|] == validationWarnings;
  }

  /** Builds the `sources` dictionary, keyed by listing number, and returns
      its values in insertion order. */
  method SourceLinks(retrievedDocs: seq<ScoredDoc>) returns (links: seq<SourceLink>)
    ensures links == Sources(retrievedDocs)
  {
    var sources: map<string, SourceLink> := map[];
    var order: seq<string> := [];
    for i := 0 to |retrievedDocs|
      invariant order == Numbers(Sources(retrievedDocs[..i]))
      invariant forall k :: k in sources <==> k in order
      invariant forall j :: 0 <= j < |order| ==> sources[order[j]] == Sources(retrievedDocs[..i])[j]
    {
      assert retrievedDocs[..i + 1][..i] == retrievedDocs[..i];
      var meta := retrievedDocs[i].metadata;
      var listingNum := Get(meta, "listing_number", "");
      var sourceUrl := Get(meta, "source_url", "");
      if listingNum != "" && sourceUrl != "" && listingNum !in sources {
        sources := sources[listingNum := SourceLink(listingNum, Get(meta, "body_system", ""), sourceUrl)];
        order := order + [listingNum];
      }
    }
    assert retrievedDocs[..|retrievedDocs|] == retrievedDocs;
    links := seq(|order|, j requires 0 <= j < |order| => sources[order[j]]);
  }

  // ---------------------------------------------------------------------
  // Properties of the pipeline

  /** Findings too short once stripped are refused before the store or the
      model is consulted: the result does not depend on either. */
  lemma ShortFindingsRefused(medicalFindings: string, store: Retrieval.Store, generator: Generator,
                             otherStore: Retrieval.Store, otherGenerator: Generator)
    requires |Strip(medicalFindings)| < MinLength
    ensures Analyze(medicalFindings, store, generator) == Analyze(medicalFindings, otherStore, otherGenerator)
    ensures Analyze(medicalFindings, store, generator).status == Failed
    ensures Analyze(medicalFindings, store, generator).error
      == Some(if Strip(medicalFindings) == [] then EmptyError else ShortError)
    ensures Analyze(medicalFindings, store, generator).retrievedCount == 0
    ensures Analyze(medicalFindings, store, generator).matchedListings == []
  {
  }

  /** A search that finds nothing is reported as "no_results" with the
      short disclaimer, and the model is never asked. */
  lemma NoResultsReported(medicalFindings: string, store: Retrieval.Store, generator: Generator)
    requires |Strip(medicalFindings)| >= MinLength
    requires Retrieval.Search(Strip(medicalFindings), Config.TopK, store) == Success([])
    ensures Analyze(medicalFindings, store, generator)
      == AnalysisResult(NoResults, NoResultsText, [], 0, None, None, ShortDisclaimer, None)
    ensures forall g: Generator :: Analyze(medicalFindings, store, g) == Analyze(medicalFindings, store, generator)
  {
  }

  /** The fields of a result agree with its status. */
  lemma ResultShape(medicalFindings: string, store: Retrieval.Store, generator: Generator)
    ensures var r := Analyze(medicalFindings, store, generator);
      && (r.status == Failed <==> r.error.Some?)
      && (r.status == Succeeded <==> r.sources.Some?)
      && (r.status == Succeeded <==> r.validationWarnings.Some?)
      && (r.status != Succeeded ==> r.matchedListings == [])
      && (r.status == Failed ==> r.analysis == "" && r.disclaimer == "")
      && (r.status == NoResults ==> r.retrievedCount == 0 && r.disclaimer == ShortDisclaimer)
      && (r.status == Succeeded ==> r.retrievedCount > 0 && r.disclaimer == FullDisclaimer)
  {
    var findings := Strip(medicalFindings);
    if findings == [] {
      assert Analyze(medicalFindings, store, generator) == ErrorResult(EmptyError, 0);
    } else if |findings| < MinLength {
      assert Analyze(medicalFindings, store, generator) == ErrorResult(ShortError, 0);
    } else {
      match Retrieval.Search(findings, Config.TopK, store)
      case Failure(e) =>
        assert Analyze(medicalFindings, store, generator) == ErrorResult(SearchFailed(e), 0);
      case Success(docs) =>
        if docs != [] {
          match generator(Prompt.PromptMessages(findings, docs))
          case Failure(e) =>
            assert Analyze(medicalFindings, store, generator) == ErrorResult(e, |docs|);
          case Success(text) =>
            assert Analyze(medicalFindings, store, generator) == Answered(findings, docs, text);
        }
    }
  }

  /** Stripped findings of at least `MinLength` characters are searched
      with `TOP_K`; a store failure is reported with its message, and the
      model is never asked. */
  lemma SearchFailureReported(medicalFindings: string, store: Retrieval.Store, generator: Generator, e: string)
    requires |Strip(medicalFindings)| >= MinLength
    requires Retrieval.Search(Strip(medicalFindings), Config.TopK, store) == Failure(e)
    ensures Analyze(medicalFindings, store, generator) == ErrorResult(SearchFailed(e), 0)
    ensures forall g: Generator :: Analyze(medicalFindings, store, g) == Analyze(medicalFindings, store, generator)
  {
  }

  /** A model failure is reported with its own message, and with the number
      of documents that were retrieved. */
  lemma ModelFailureReported(medicalFindings: string, store: Retrieval.Store, generator: Generator,
                             docs: seq<ScoredDoc>, e: string)
    requires |Strip(medicalFindings)| >= MinLength
    requires Retrieval.Search(Strip(medicalFindings), Config.TopK, store) == Success(docs) && docs != []
    requires generator(Prompt.PromptMessages(Strip(medicalFindings), docs)) == Failure(e)
    ensures Analyze(medicalFindings, store, generator).error == Some(e)
    ensures Analyze(medicalFindings, store, generator).retrievedCount == |docs|
  {
  }

  /** A successful analysis: the model's text comes first and is kept
      whole; the warnings are those of the validator, each listed after the
      text; the matched listings are the sorted distinct listing numbers the
      final text mentions; the sources are the links of the retrieved
      documents. */
  lemma AnsweredSpec(findings: string, docs: seq<ScoredDoc>, text: string)
    ensures var r := Answered(findings, docs, text);
      var ws := Validation.Warnings(text, findings);
      && r.status == Succeeded
      && r.retrievedCount == |docs|
      && r.validationWarnings == Some(ws)
      && |text| <= |r.analysis| && r.analysis[..|text|] == text
      && (r.analysis == text <==> ws == [])
      && (forall k :: 0 <= k < |ws| ==> Contains(r.analysis, WarningLine(ws[k])))
      && Listings.StrictlySorted(r.matchedListings)
      && (forall t :: t in r.matchedListings <==> t in Listings.FindListingNumbers(r.analysis))
      && (forall t :: t in r.matchedListings ==> Listings.IsListingNumber(t))
      && r.sources == Some(Sources(docs))
  {
    var ws := Validation.Warnings(text, findings);
    WithWarningsSpec(text, ws);
    Listings.MatchedListingsSpec(WithWarnings(text, ws));
  }

  /** When the store returns documents and the model answers, the result
      is the answered one, built from the stripped findings. */
  lemma SuccessSpec(medicalFindings: string, store: Retrieval.Store, generator: Generator,
                    docs: seq<ScoredDoc>, text: string)
    requires |Strip(medicalFindings)| >= MinLength
    requires Retrieval.Search(Strip(medicalFindings), Config.TopK, store) == Success(docs) && docs != []
    requires generator(Prompt.PromptMessages(Strip(medicalFindings), docs)) == Success(text)
    ensures Analyze(medicalFindings, store, generator) == Answered(Strip(medicalFindings), docs, text)
    ensures Analyze(medicalFindings, store, generator).analysis[..|text|] == text
  {
    AnsweredSpec(Strip(medicalFindings), docs, text);
  }

  /** The sources of a successful result: keys are distinct, each link has
      a number and a page, every qualifying retrieved document is
      represented, and each link is that of the first document with its
      number. */
  lemma SourcesSpec(docs: seq<ScoredDoc>)
    ensures forall i, j :: 0 <= i < j < |Sources(docs)| ==>
      Sources(docs)[i].listingNumber != Sources(docs)[j].listingNumber
    ensures forall j :: 0 <= j < |Sources(docs)| ==>
      Sources(docs)[j].listingNumber != "" && Sources(docs)[j].sourceUrl != ""
    ensures forall k :: 0 <= k < |docs| && Qualifies(docs[k]) ==>
      LinkOf(docs[k]).listingNumber in Numbers(Sources(docs))
    ensures forall j :: 0 <= j < |Sources(docs)| ==>
      FirstLink(docs, Sources(docs)[j].listingNumber) == Some(Sources(docs)[j])
  {
    SourcesWellFormed(docs);
    SourcesMatchFirstLinks(docs);
    forall k | 0 <= k < |docs| && Qualifies(docs[k])
      ensures LinkOf(docs[k]).listingNumber in Numbers(Sources(docs))
    {
      FirstLinkFound(docs, k);
    }
  }
}
