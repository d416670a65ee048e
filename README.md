# Blue Book RAG agent — a verified model of its core

The repository answers a disability attorney's question: "which listings of
the SSA Blue Book could this client's medical findings meet?". Its core has
two halves:

- the **scraper**, which cuts each Blue Book section page into a section
  introduction and one record per listing, keeps one record per listing
  number, and splits the mega-listing 2.00 into its subsections A to E;
- the **RAG pipeline**, which:
  - checks the findings;
  - retrieves matching Blue Book documents with one query for the whole
    text plus one per medical condition it mentions;
  - builds the prompt;
  - asks the language model;
  - checks the answer for missing sections, a wrong age category and
    hearing advice in a vision case;
  - collects the listing numbers the answer mentions and the source links
    of the retrieved listings.

This project models both halves in Dafny. Each step that loops in the
source is a method with loop invariants. Each method is proved equal to a
specification function, and the lemmas prove what the source promises
about those functions.

| file | module | models |
|---|---|---|
| wrappers.dfy | Wrappers | `Option`, `Result` |
| text.dfy | Text | `str.strip`, `lower`/`upper`, substring tests, `\b…\b`, `"\n".join`, string order |
| config.dfy | Config | `TOP_K`, `SECTION_MAP`, `SECTION_URL_MAP` |
| conditions.dfy | Conditions | `_extract_condition_queries` |
| docs.dfy | Docs | a store hit and a merged document |
| ranking.dfy | Ranking | list filters and the stable sort by distance |
| retrieval.dfy | Retrieval | `search_blue_book` |
| prompt.dfy | Prompt | `build_claude_prompt` |
| validation.dfy | Validation | `_validate_analysis`, `_get_age_category` |
| listings.dfy | Listings | the `matched_listings` regex, set and sort |
| pipeline.dfy | Pipeline | `analyze_medical_findings` |
| sections.dfy | Sections | the text half of `parse_section` |
| scraper.dfy | Scraper | `split_section_2_listing`, the de-duplication, `scrape_all` |

Modelling choices:

- The vector store is a function from a query and a count to a list of
  hits, or to an error.
- The language model is a function from the prompt messages to a reply, or
  to an error.
- The pages of the scraper arrive as their extracted text, or as nothing
  when a page could not be fetched.
- Regular expressions are position predicates plus a left-to-right scan
  for non-overlapping matches, as `re.finditer` does.

## Model

| member | source | states |
|---|---|---|
| Conditions.ExtractConditionQueries | rag.py:222-290 | the sub-queries are those of `ConditionQueries`: each table row whose keywords occur as a whole word in the lowercased text gives its query, in table order |
| Conditions.FiredQueries | rag.py:284-288 | walking any list of categories in order yields `Fired`: the query of each category that fires, in table order |
| Conditions.CategoryFires | rag.py:286-287 | the keyword loop answers `Fires`: true exactly when some keyword occurs as a whole word |
| Conditions.FiredMembership | rag.py:284-288 | a query is emitted if and only if some row with that query has a keyword present as a whole word |
| Conditions.FiredInTableOrder | rag.py:284-290 | the emitted queries follow the table's order, one for each row that fires and none for a row that does not |
| Conditions.FiredDistinct | rag.py:284-290 | when the table's queries are distinct, no query is emitted twice |
| Conditions.ConditionMapQueriesDistinct | rag.py:236-282 | the condition table's queries are pairwise distinct |
| Conditions.ConditionQueriesSpec | rag.py:222-290 | a query is returned if and only if its row fires, and no query is returned twice |
| Conditions.NoMatchNoQueries | rag.py:284-290 | no sub-query at all exactly when no row of the table fires |
| Conditions.ConditionQueriesIgnoreCase | rag.py:232 | upper-casing the findings changes no sub-query, since the text is lowercased first |
| Text.HasWholeWord | rag.py:286-287 | `\bkw\b` is found if and only if the keyword occurs at some position with a word boundary on both sides |
| Ranking.Filter | rag.py:206-207 | the comprehension keeps exactly the documents that satisfy the test, in order |
| Ranking.SortByDistance | rag.py:210 | the result is sorted by distance and is a permutation of the input |
| Ranking.SortIsStable | rag.py:217-218 | documents at equal distance keep their relative order, as Python's sort does |
| Retrieval.SearchBlueBook | rag.py:144-219 | the method returns `Search`: the merged documents of all queries, filtered, budgeted and sorted, or the first store error |
| Retrieval.RunQueries | rag.py:167-193 | the query loop returns `Merged`: the merge of every query's ranked hits when all queries succeed, otherwise the first store error |
| Retrieval.SelectDocs | rag.py:195-218 | phases 1b to 3 return `SelectFinal` of the merged documents in first-seen order |
| Retrieval.MergeHits | rag.py:176-193 | folding one query's hits into the document map gives the merge of all occurrences so far |
| Retrieval.MergeOne | rag.py:176-193 | one hit at rank `i` changes the map exactly as `MergeHit` does |
| Retrieval.Partition | rag.py:196-202 | the documents with best rank below 3 and the rest, each in first-seen order |
| Retrieval.MergeHitSpec | rag.py:180-193 | a new id is stored with its hit and rank; a known id keeps its text and metadata and takes the smaller distance and the smaller rank; other ids are untouched |
| Retrieval.MergeAllKeepsFirst | rag.py:180-187 | a merged document's text and metadata are those of its id's first occurrence |
| Retrieval.CollectSpec | rag.py:169-174 | all queries succeed exactly when the store answers each one, and then there is one hit list per query in order; otherwise the error is that of the first failing query |
| Retrieval.MergedKeys | rag.py:176-193 | the merged ids are exactly the ids of all hits of all queries |
| Retrieval.MergedLowerBound | rag.py:188-193 | a merged document's distance and best rank are at most those of every hit of its id |
| Retrieval.MergedAttained | rag.py:188-193 | a merged document's distance and best rank are each attained by some hit of its id |
| Retrieval.SelectNoDupIds | rag.py:196-219 | no document is returned twice |
| Retrieval.SelectBounds | rag.py:205-219 | the result is sorted by distance, every document is within 0.6, the count is the guaranteed ones plus the budgeted overflow, and overflow never pushes the total past `2 * top_k` |
| Retrieval.SelectKeepsGuaranteed | rag.py:196-215 | every document in the top 3 of some query and within 0.6 is returned |
| Retrieval.SelectClosestOverflow | rag.py:209-215 | an overflow document left out is no closer than any overflow document kept |
| Retrieval.SearchSpec | rag.py:144-219 | when every query succeeds: distinct ids, sorted, all within 0.6, every top-3 hit within 0.6 included, each document's distance and rank are at most those of each of its hits, and its distance is attained by one of them |
| Retrieval.SelectRankAttained | rag.py:188-218 | each selected document's best rank is the position of one of its hits in some query's result |
| Retrieval.SearchRankAttained | rag.py:144-219 | when every query succeeds, each result's best rank is the position of one of its hits in some query's result |
| Retrieval.SearchErrorSpec | rag.py:169-174 | the search fails if and only if some query fails, and it reports the first failing query's error |
| Prompt.BuildClaudePrompt | rag.py:293-398 | the method returns `PromptMessages`: the system message, then the user message joining the listing block, the guideline block and the findings block |
| Prompt.Classify | rag.py:306-314 | documents become section intros, subsection documents (they have a topic) or listings, each list in retrieval order |
| Prompt.ClassifyPartition | rag.py:306-314 | every retrieved document lands in exactly one of the three lists |
| Prompt.RelevantTopics | rag.py:316-336 | general guidance is always kept; each specific topic is kept if and only if one of its listings was retrieved or no specific 2.xx listing was |
| Prompt.Relevant | rag.py:317-336 | the method computes `RelevantTopics` of the retrieved listing numbers |
| Prompt.KeepRelevant | rag.py:338-343 | exactly the subsection documents whose topic is relevant are kept, in order |
| Prompt.GuidelinesSpec | rag.py:306-343 | a document is a guideline if and only if it is a section intro or a subsection document of a relevant topic |
| Prompt.VisionAndHearingKeptApart | rag.py:316-336 | with vision listings and no hearing listings, no hearing subsection is sent, and the other way round |
| Prompt.NoSpecificListingKeepsAll | rag.py:335-336 | with no specific 2.xx listing retrieved, every subsection document is kept |
| Prompt.Truncate | rag.py:374-381 | text within its topic's cap (20000 for visual disorders, 3000 otherwise) is unchanged; longer text is cut to the cap and the marker appended |
| Prompt.TruncateIdempotent | rag.py:374-381 | truncating a truncated text changes nothing |
| Prompt.ListingLines | rag.py:346-360 | the lines of the listing block are `ListingEntries`: header, optional source, text, separator per listing |
| Prompt.AppendListing | rag.py:349-359 | one listing adds `ListingEntry` to the lines, after what was there |
| Prompt.GuidelineLines | rag.py:362-387 | the lines of the guideline block are `GuidelineEntries`: header, truncated text, separator per guideline |
| Prompt.PromptCarriesFindings | rag.py:389-398 | there are two messages, the system prompt and then the user's, which contains the findings and ends with the findings block |
| Prompt.RetrievedTextsIncluded | rag.py:346-387 | every retrieved listing's text and every guideline's truncated text occur in the user message |
| Validation.AgeCategory | rag.py:538-549 | the category is one of five, each holding exactly for its age bracket (<50, 50-54, 55-59, 60-64, 65+) |
| Validation.AgeCategoryMonotonic | rag.py:538-549 | an older age never gets an earlier bracket |
| Validation.AgeBoundaries | rag.py:540-549 | 49/50, 54/55, 59/60 and 64/65 fall on either side of the boundaries |
| Validation.FindAgeFrom | rag.py:490 | the scan stops at the leftmost position where the age pattern matches, or finds none when no position matches |
| Validation.FindAgeSpec | rag.py:490-493 | the age is the two-digit value of the leftmost match, and there is none exactly when nothing matches |
| Validation.AgeFormPlain | rag.py:489-490 | "age 55" gives 55 |
| Validation.AgeFormAged | rag.py:489-490 | "aged: 61" gives 61 |
| Validation.AgeFormHyphenated | rag.py:489-490 | "a 47-year-old" gives 47 |
| Validation.AgeFormSpaced | rag.py:489-490 | "52 year old" gives 52 |
| Validation.ValidateAnalysis | rag.py:462-535 | the method returns `Warnings`: missing sections, then age warnings, then vision warnings |
| Validation.SectionWarnings | rag.py:470-485 | one message per required heading absent from the upper-cased analysis, in table order |
| Validation.MissingSectionsSpec | rag.py:483-485 | a heading's message is present if and only if the heading is missing; no more messages than headings |
| Validation.MissingSectionsDistinct | rag.py:483-485 | when the labels are distinct, no message is reported twice |
| Validation.SectionWarningsDistinct | rag.py:473-485 | for the eight required headings, each missing heading is reported exactly once |
| Validation.SectionWarningsIffComplete | rag.py:470-485 | no section warning exactly when all eight headings occur |
| Validation.AgeChecks | rag.py:488-511 | the method returns the age warnings when the findings state an age, none otherwise |
| Validation.AgeWarningsSpec | rag.py:496-511 | at most one age warning; one exactly when a 55+ claimant is called "closely approaching advanced age", or a 50-54 claimant "advanced age" without the closely-approaching wording; none under 50 |
| Validation.CorrectAdvancedAgePasses | rag.py:496-511 | a 55+ claimant without the closely-approaching wording gets no age warning |
| Validation.VisionChecks | rag.py:512-533 | the method returns the calculation-gap and contamination warnings of a vision case |
| Validation.HasVisionKeyword | rag.py:512-514 | the method is true if and only if some vision keyword is a substring of the lowercased findings |
| Validation.FoundTerms | rag.py:528 | the found terms are exactly the hearing terms occurring in the analysis |
| Validation.VisionWarningsSpec | rag.py:512-533 | no vision warning outside a vision case; the gap warning is present if and only if the analysis says a value cannot be calculated or determined; the contamination warning is present if and only if a hearing term occurs |
| Validation.MessagesDiffer | rag.py:517-532 | the two vision warnings are told apart |
| Validation.AgeFoundEmpty | rag.py:488-511 | no age warning exactly when no age is stated or neither age condition holds for it |
| Validation.VisionWarningsEmpty | rag.py:513-533 | no vision warning exactly when the case is not a vision case, or the analysis has neither a refusal phrase nor a hearing term |
| Validation.WarningsEmptySpec | rag.py:462-535 | the validator returns no warning exactly when every heading occurs and neither the age checks nor the vision checks fire |
| Validation.WarningsIgnoreFindingsCase | rag.py:488 | upper-casing the findings changes no warning |
| Listings.ScanFrom | rag.py:629-631 | every captured token is a listing number: one or two digits, a dot, two digits |
| Listings.PrefixIsImmaterial | rag.py:630 | the optional `Listing\s+` prefix never changes what is captured |
| Listings.SortedUnique | rag.py:629-632 | the result is strictly sorted and holds exactly the tokens of the input |
| Listings.StrictlySortedUnique | rag.py:629-632 | two strictly sorted lists with the same elements are equal, so the order of set iteration does not matter |
| Listings.MatchedListingsSpec | rag.py:629-632 | the matched listings are strictly sorted, listing-number shaped, and exactly the numbers the scan finds |
| Listings.ScanExamples | rag.py:630 | "Listing 2.02" gives ["2.02"]; "123.45" gives ["23.45"] |
| Pipeline.AnalyzeMedicalFindings | rag.py:552-655 | the method returns `Analyze`: input checks, search, no-results answer, model call, then the successful result |
| Pipeline.Respond | rag.py:618-655 | the successful result is `Answered`: the reply plus its warning block, the matched listings, the sources, the warnings and the full disclaimer |
| Pipeline.WarningBlock | rag.py:622-626 | the block is the heading followed by one `- w` line per warning |
| Pipeline.SourceLinks | rag.py:635-645 | the links are `Sources`: one per listing number, first document wins, only documents with a number and a page |
| Pipeline.WithWarningsSpec | rag.py:621-626 | the reply is kept as a prefix, is unchanged exactly when there are no warnings, and contains every warning's line |
| Pipeline.WarningLinesContain | rag.py:624-625 | each warning has its own line in the block |
| Pipeline.SourcesWellFormed | rag.py:638-645 | every link has a number and a page, and no number has two links |
| Pipeline.FirstLinkSnoc | rag.py:636-645 | adding a document changes the first link of a number only when it had none |
| Pipeline.SourcesMatchFirstLinks | rag.py:635-645 | the linked numbers are exactly those with a first qualifying document, and each link is that document's |
| Pipeline.SourcesSpec | rag.py:635-645 | distinct numbers, every qualifying document's number linked, each link taken from the first document with that number |
| Pipeline.ShortFindingsRefused | rag.py:558-578 | findings shorter than 20 characters after stripping are refused with the empty or the short message, with status error, count 0 and no matched listings, before the store or the model is used |
| Pipeline.NoResultsReported | rag.py:593-600 | a search that returns nothing gives the no_results record (its text, count 0, the short disclaimer, no sources or warnings), whatever the model |
| Pipeline.ResultShape | rag.py:558-655 | an error is reported exactly on failure; sources and warnings exactly on success; no matched listings unless successful; the counts and disclaimers of each status |
| Pipeline.SearchFailureReported | rag.py:580-591 | a store error becomes "Database search failed" with no retrieved documents, and the model is never used |
| Pipeline.ModelFailureReported | rag.py:603-616 | a model error is reported as it is, with the number of retrieved documents |
| Pipeline.AnsweredSpec | rag.py:618-655 | success carries the count, the warnings, the reply as prefix of the analysis, every warning line, the sorted matched listings of the final analysis text, and the sources |
| Pipeline.SuccessSpec | rag.py:580-655 | with a search result and a reply, the result is `Answered` for the stripped findings, and the analysis starts with the reply |
| Config.SectionUrl | config.py:69 | a section's page is its URL in the map, or "" when absent |
| Config.BodySystem | config.py:33-48 | a section's body system is its name in the map, or "Unknown" when absent |
| Sections.ParseSection | scraper.py:105-187 | the method returns `Parse`: the intro before the first header and one record per header |
| Sections.ListingsFor | scraper.py:147-177 | the loop over header matches yields `ListingsOf`: one record per match, in match order |
| Sections.ListingFor | scraper.py:148-177 | one listing's record is `ListingAt`: number, stripped title, stripped text up to the next header, summary, page |
| Sections.Summarize | scraper.py:157-162 | a short text is stripped; a text over 300 characters gives its stripped first 300 characters and "..." |
| Sections.SectionPrefix | scraper.py:129 | the prefix is the section number up to its first dot |
| Sections.ListingHeaderAt | scraper.py:133-136 | a header match starts at its position and is well formed: number, whitespace, a capital, the rest of the line |
| Sections.ScanMatches | scraper.py:138 | every match of the scan is a header at its position |
| Sections.ScanOrdered | scraper.py:138 | the matches come in text order without overlapping |
| Sections.ScanLeftmost | scraper.py:138 | no header starts before the first match |
| Sections.HeadersOrdered | scraper.py:138 | a section's header matches are well formed and ordered |
| Sections.IntroSpec | scraper.py:140-144 | the intro is the stripped text before the first header, or the whole stripped text, and carries the section's page |
| Sections.PiecesCoverText | scraper.py:152-155 | the intro and the listing pieces together are the whole text |
| Sections.MatchShape | scraper.py:133-136 | a match begins with the prefix, a dot and two digits, and its title begins with a capital |
| Sections.ListingShape | scraper.py:147-177 | every listing number is the section prefix, a dot and two digits, the full text starts with it, the title starts with a capital, and section, body system and page are inherited |
| Scraper.SubsectionHeaderEnd | scraper.py:211-214 | a subsection header is a letter from B to E at a line start, followed by a dot, and ends after its start |
| Scraper.SubsectionStartsMatch | scraper.py:215 | every start found is a subsection header |
| Scraper.SubsectionStartsIncrease | scraper.py:215 | the starts increase and lie inside the text |
| Scraper.SubsectionStartsNone | scraper.py:215-220 | with no header anywhere, nothing is found |
| Scraper.SplitSection2Listing | scraper.py:190-268 | the method returns `SplitAll`: every listing other than 2.00 as it is, 2.00 without headers as it is, otherwise its subsections |
| Scraper.BuildBoundaries | scraper.py:238-247 | A runs from 0 to the first header, each header to the next one or to the end |
| Scraper.EmitSubsections | scraper.py:249-264 | one record per boundary whose stripped text is not empty, in order |
| Scraper.BoundariesPartition | scraper.py:238-247 | A starts at 0, each span ends where the next begins, the last ends with the text, and the spans make up the text |
| Scraper.SubsectionDocsSpec | scraper.py:249-264 | every record is a subsection: number `2.00_X`, title and topic of X, inherited section, system and page, non-empty text and its summary; at most one per boundary |
| Scraper.SubsectionDocsComplete | scraper.py:248-264 | every boundary whose stripped span is not empty yields the record carrying that stripped span |
| Scraper.SubsectionDocsSound | scraper.py:248-264 | every record is that of some boundary and carries its stripped span as its text |
| Scraper.SplitAllAppend | scraper.py:201-205 | splitting a concatenation splits each part, so listings keep their relative order |
| Scraper.SplitKeepsOthers | scraper.py:202-205 | a list without listing 2.00 comes out unchanged |
| Scraper.NoHeaderKeepsListing | scraper.py:217-220 | listing 2.00 without a subsection header is kept as it is |
| Scraper.DedupListings | scraper.py:300-306 | the method returns `Deduped`, one record per listing number in first-seen order |
| Scraper.Longest | scraper.py:300-306 | the reference winner of a number comes from the input, has that number, is at least as long as any record with it, and exists exactly when the number occurs |
| Scraper.LongestSnoc | scraper.py:304-305 | a later record replaces the winner only when strictly longer |
| Scraper.DedupIsLongest | scraper.py:300-306 | the loop's dictionary holds, for every number, exactly the reference winner |
| Scraper.DedupedDistinct | scraper.py:300-306 | after de-duplication no listing number occurs twice |
| Scraper.DedupedComplete | scraper.py:300-306 | every listing number of the input survives |
| Scraper.DedupedLongest | scraper.py:300-306 | each kept record is the longest of its number, the earliest on ties |
| Scraper.DedupOrderOccurs | scraper.py:301-305 | the table's keys are exactly the listing numbers that occur in the input |
| Scraper.DedupFirstSeenOrder | scraper.py:301-305 | the keys are in first-seen order: every occurrence of a later key comes after an occurrence of an earlier one |
| Scraper.DedupedFirstSeenOrder | scraper.py:300-306 | `list(deduped.values())` lists the numbers in first-seen order |
| Scraper.ScrapeAll | scraper.py:271-326 | the method returns `Scrape`: the parsed listings de-duplicated then split, and the intros of the fetched pages |
| Scraper.IntrosSpec | scraper.py:282-293 | one intro per fetched page at most, each for a fetched section and with that section's body system |
| Scraper.IntrosInPageOrder | scraper.py:282-293 | exactly one intro per fetched page, in page order, each for its page's section |
| Scraper.ScrapeWithoutMegaListing | scraper.py:300-309 | without a 2.00 listing, the scraped listings are exactly the de-duplicated ones |

## Left out

- The vector store (`get_chroma_collection`, `collection.query`) is a function parameter. Embeddings and the distances it computes are not modelled. A store exception becomes an error value.
- `call_claude` (HTTP to OpenRouter, its status-code messages and timeouts) is a function parameter returning the reply or the error message.
- The wording of `SYSTEM_PROMPT` is a stand-in string. Only its place as the first message is modelled.
- Distances are `real`s, not floating-point numbers.
- `fetch_page`, `find_content_div`, BeautifulSoup's `get_text`, `save_data`, `time.sleep` and every `print`, including the failed-sections report of `scrape_all`, are I/O. Pages arrive as extracted text, in the order of `BLUE_BOOK_URLS`.
- `main.py`, `build_db.py` and `download_pages.py` are not part of this model.
- `str.lower`, `str.upper`, `\w` and `\d` are modelled on ASCII only. Python's Unicode case mapping and Unicode digits are not. `\s` and `str.strip` use Python's whitespace set.
- The `sources` dictionary is an ordered sequence of links in insertion order, and `doc_map` is a map plus an insertion-order list.
- Sections.ParseSection: the section prefix is matched literally. Python interpolates it into the pattern, which only differs for a section number containing regular-expression syntax. The criteria summary slices the full text by the length of `"{number} {title}"`, as written, even when the number and title are separated by more than one whitespace character.
- Sections.ListingShape: it assumes the section number does not start with whitespace. Otherwise stripping the listing text could cut into its number.
