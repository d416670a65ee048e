/** The documents that flow through retrieval and prompt assembly. */
module Docs {

  /** A document's metadata record (`doc_type`, `body_system`,
      `listing_number`, `section_number`, `source_url`, `subsection_topic`). */
  type Metadata = map<string, string>

  /** `meta.get(key, default)` */
  function Get(meta: Metadata, key: string, default: string): (v: string)
    ensures key in meta ==> v == meta[key]
    ensures key !in meta ==> v == default
  {
    if key in meta then meta[key] else default
  }

  /** One row the store returns for one query; its rank is its index in the
      list. Distances are only ever compared. */
  datatype Hit = Hit(id: string, text: string, metadata: Metadata, distance: real)

  /** A retrieved document after the merge: the smallest distance and the
      best (smallest) rank it reached over all queries. */
  datatype ScoredDoc = ScoredDoc(id: string, text: string, metadata: Metadata,
                                 distance: real, bestRank: nat)
}
