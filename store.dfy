/**
 * The vector store both pipelines share, reduced to what the pipeline relies on: a map
 * from record id to the record's text and metadata, `get` by id, insertion by id, and a
 * similarity search that the pipeline treats as an oracle bounded by `k` and a filter.
 */
module VectorStore {
  import opened Json

  /** The fixed id under which the company profile is stored. */
  const ProfileId := "COMPANY_PROFILE"

  /** Metadata attached to a record; the store accepts only primitive values. */
  type Metadata = map<string, Value>

  /** A stored record: the document text (embedded by the store) and its metadata. */
  datatype Record = Record(text: string, metadata: Metadata)

  /** A similarity search: query text, at most `k` hits, only records whose `source` is `source`. */
  datatype Query = Query(text: string, k: nat, source: string)

  /** The record's metadata field `source` equals `source` (the exact-match filter). */
  predicate FromSource(r: Record, source: string) {
    "source" in r.metadata && r.metadata["source"] == Str(source)
  }

  /**
   * What a search that honours its request returns: no more than `k` hits, each a stored
   * record that passes the filter. The ranking among them is the store's own.
   */
  predicate Conforms(records: map<string, Record>, q: Query, hits: seq<Record>) {
    && |hits| <= q.k
    && forall i | 0 <= i < |hits| :: hits[i] in records.Values && FromSource(hits[i], q.source)
  }

  /** `get(ids=[id], include=["documents"])["documents"]`: the text of `id`, if stored. */
  function Documents(records: map<string, Record>, id: string): (docs: seq<string>)
  {
    if id in records then [records[id].text] else []
  }

  /** `get(ids=[id], include=["metadatas"])["metadatas"]`: the metadata of `id`, if stored. */
  function Metadatas(records: map<string, Record>, id: string): (metas: seq<Metadata>)
  {
    if id in records then [records[id].metadata] else []
  }

  /** The store client: its contents change in place as records are added. */
  class Store {
    var records: map<string, Record>

    /** Opens the persisted collection: the client sees exactly the records stored so far. */
    constructor (persisted: map<string, Record>)
      ensures records == persisted
    {
      records := persisted;
    }

    /** Looks up the metadata of one id; changes nothing. */
    method GetMetadatas(id: string) returns (metas: seq<Metadata>)
      ensures metas == Metadatas(records, id)
      ensures |metas| <= 1 && (metas != [] <==> id in records)
    {
      metas := if id in records then [records[id].metadata] else [];
    }

    /** `add_texts` with one text, one metadata map and one id: writes that id, and only it. */
    method AddText(id: string, text: string, metadata: Metadata)
      modifies this
      ensures records == old(records)[id := Record(text, metadata)]
    {
      records := records[id := Record(text, metadata)];
    }
  }
}
