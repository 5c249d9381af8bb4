/**
 * The ingestion pipeline (embed.py): the metadata normaliser, the guarded insertion of the
 * company profile, and the per-chunk insertion of a proposal PDF. `json.dumps`, `json.load`,
 * the PDF page extraction, the text splitter and `uuid4` are parameters.
 */
module Embed {
  import opened Wrappers
  import opened Json
  import opened Text
  import opened VectorStore

  /** The normalised form of one metadata value: primitives as they are, the rest as JSON text. */
  function CleanValue(v: Value, dumps: Value -> string): Value {
    if IsPrimitive(v) then v else Str(dumps(v))
  }

  /** The normalised metadata map, key by key. */
  function Cleaned(meta: Metadata, dumps: Value -> string): Metadata {
    map k | k in meta :: CleanValue(meta[k], dumps)
  }

  /**
   * `clean_metadata`: fills a fresh map key by key. It keeps every key, copies primitive
   * values and replaces lists and objects by their JSON text, so every value it returns is
   * primitive.
   */
  method CleanMetadata(meta: Metadata, dumps: Value -> string) returns (result: Metadata)
    ensures result.Keys == meta.Keys
    ensures forall k | k in meta && IsPrimitive(meta[k]) :: result[k] == meta[k]
    ensures forall k | k in meta && !IsPrimitive(meta[k]) :: result[k] == Str(dumps(meta[k]))
    ensures forall k | k in result :: IsPrimitive(result[k])
    ensures result == Cleaned(meta, dumps)
  {
    result := map[];
    var todo := meta.Keys;
    while todo != {}
      invariant todo <= meta.Keys
      invariant result.Keys == meta.Keys - todo
      invariant forall k | k in result :: result[k] == CleanValue(meta[k], dumps)
      decreases todo
    {
      var key :| key in todo;
      var value := meta[key];
      if IsPrimitive(value) {
        result := result[key := value];
      } else {
        result := result[key := Str(dumps(value))];
      }
      todo := todo - {key};
    }
  }

  /** Normalising metadata that is already normalised changes nothing. */
  lemma CleanedIdempotent(meta: Metadata, dumps: Value -> string)
    ensures Cleaned(Cleaned(meta, dumps), dumps) == Cleaned(meta, dumps)
  {
  }

  /**
   * A list or object replaced by its JSON text comes back unchanged through any parser that
   * inverts `json.dumps` on it.
   */
  lemma CleanedRoundTrip(meta: Metadata, dumps: Value -> string, loads: string -> Option<Value>, key: string)
    requires key in meta && !IsPrimitive(meta[key])
    requires loads(dumps(meta[key])) == Some(meta[key])
    ensures key in Cleaned(meta, dumps) && Cleaned(meta, dumps)[key].Str?
    ensures loads(Cleaned(meta, dumps)[key].s) == Some(meta[key])
  {
  }

  /** Which branch `ingest_company_profile` took; `MissingDescription` is the raised KeyError. */
  datatype ProfileOutcome = FileNotFound | LoadFailed | AlreadyIndexed | MissingDescription | Indexed

  /** The branch taken together with the store's contents afterwards. */
  datatype ProfileIngestion = ProfileIngestion(outcome: ProfileOutcome, records: map<string, Record>)

  /** `company["description"]`, when the loaded document is an object whose description is text. */
  function Description(company: Value): Option<string> {
    if company.Obj? && "description" in company.fields && company.fields["description"].Str?
    then Some(company.fields["description"].s)
    else None
  }

  /** `metas and metas[0]`: a profile record with non-empty metadata is already stored. */
  predicate ProfileIndexed(records: map<string, Record>) {
    var metas := Metadatas(records, ProfileId);
    metas != [] && metas[0] != map[]
  }

  /**
   * What `ingest_company_profile` does to a store, given the files on disk (`path in files`
   * is `os.path.exists`) and `json.load` as `load` (None when it raises).
   */
  function IngestProfile(records: map<string, Record>, files: map<string, string>, path: string,
                         load: string -> Option<Value>, dumps: Value -> string): ProfileIngestion
  {
    if path !in files then ProfileIngestion(FileNotFound, records)
    else match load(files[path])
      case None => ProfileIngestion(LoadFailed, records)
      case Some(company) =>
        if ProfileIndexed(records) then ProfileIngestion(AlreadyIndexed, records)
        else match Description(company)
          case None => ProfileIngestion(MissingDescription, records)
          case Some(text) =>
            ProfileIngestion(Indexed, records[ProfileId := Record(text, Cleaned(company.fields, dumps))])
  }

  /**
   * `ingest_company_profile`: the file check, the guarded load, the existence check on the
   * store and, only when all pass, one insertion under the fixed id.
   */
  method IngestCompanyProfile(db: Store, files: map<string, string>, path: string,
                              load: string -> Option<Value>, dumps: Value -> string)
    returns (outcome: ProfileOutcome)
    modifies db
    ensures ProfileIngestion(outcome, db.records) == IngestProfile(old(db.records), files, path, load, dumps)
  {
    if path !in files {
      return FileNotFound;
    }
    var loaded := load(files[path]);
    if loaded.None? {
      return LoadFailed;
    }
    var company := loaded.value;
    var metas := db.GetMetadatas(ProfileId);
    if metas != [] && metas[0] != map[] {
      return AlreadyIndexed;
    }
    var description := Description(company);
    if description.None? {
      return MissingDescription;
    }
    var meta := CleanMetadata(company.fields, dumps);
    db.AddText(ProfileId, description.value, meta);
    outcome := Indexed;
  }

  /**
   * The store changes only on `Indexed`, and then only at the profile id, which afterwards
   * holds the description with the normalised profile as its metadata.
   */
  lemma IngestProfileFrame(records: map<string, Record>, files: map<string, string>, path: string,
                           load: string -> Option<Value>, dumps: Value -> string)
    ensures var after := IngestProfile(records, files, path, load, dumps);
      && (after.outcome != Indexed ==> after.records == records)
      && (after.outcome == Indexed ==>
            && path in files && load(files[path]).Some?
            && !ProfileIndexed(records)
            && after.records.Keys == records.Keys + {ProfileId}
            && (forall id | id in records && id != ProfileId :: after.records[id] == records[id])
            && var company := load(files[path]).value;
               after.records[ProfileId] == Record(Description(company).value, Cleaned(company.fields, dumps)))
  {
  }

  /**
   * Ingesting the same file twice is ingesting it once: the profile's metadata always holds
   * `description`, so the second run finds the profile indexed and leaves the store alone.
   */
  lemma IngestProfileIdempotent(records: map<string, Record>, files: map<string, string>, path: string,
                                load: string -> Option<Value>, dumps: Value -> string)
    ensures var once := IngestProfile(records, files, path, load, dumps);
            var twice := IngestProfile(once.records, files, path, load, dumps);
      && twice.records == once.records
      && (once.outcome == Indexed ==> twice.outcome == AlreadyIndexed)
  {
    var once := IngestProfile(records, files, path, load, dumps);
    if once.outcome == Indexed {
      var company := load(files[path]).value;
      var meta := Cleaned(company.fields, dumps);
      assert "description" in meta;
      assert Metadatas(once.records, ProfileId) == [meta];
    }
  }

  /** `page.extract_text() or ""`: a page without extractable text contributes the empty string. */
  function PageText(page: Option<string>): string {
    if page.Some? then page.value else ""
  }

  /** The text of every page, in page order. */
  function PageTexts(pages: seq<Option<string>>): seq<string> {
    seq(|pages|, i requires 0 <= i < |pages| => PageText(pages[i]))
  }

  /** The text of a whole PDF: its pages' texts joined by blank lines. */
  function DocumentText(pages: seq<Option<string>>): string {
    Join(ParagraphBreak, PageTexts(pages))
  }

  /** Each page's text follows the earlier pages and one blank line, in page order. */
  lemma DocumentTextLayout(pages: seq<Option<string>>, i: nat)
    requires i < |pages|
    ensures DocumentText(pages[..i]) + (if i == 0 then "" else ParagraphBreak) + PageText(pages[i])
            <= DocumentText(pages)
  {
    JoinPlacesPart(ParagraphBreak, PageTexts(pages), i);
    assert PageTexts(pages)[..i] == PageTexts(pages[..i]);
  }

  /** A page that yields no text contributes exactly what an empty page does. */
  lemma MissingPageIsEmpty(pages: seq<Option<string>>, i: nat)
    requires i < |pages| && pages[i].None?
    ensures DocumentText(pages) == DocumentText(pages[i := Some("")])
  {
    assert PageTexts(pages) == PageTexts(pages[i := Some("")]);
  }

  /** The record stored for one chunk: the chunk with the PDF's file name as its source. */
  function ChunkRecord(chunk: string, filename: string): Record {
    Record(chunk, map["source" := Str(filename)])
  }

  /** The store after inserting `chunks[j]` under `ids[j]`, one after the other. */
  function WithChunks(records: map<string, Record>, chunks: seq<string>, ids: seq<string>, filename: string)
    : map<string, Record>
    requires |ids| == |chunks|
    decreases |chunks|
  {
    if |chunks| == 0 then records
    else
      var n := |chunks| - 1;
      WithChunks(records, chunks[..n], ids[..n], filename)[ids[n] := ChunkRecord(chunks[n], filename)]
  }

  /** The ids are pairwise distinct and none of them is already stored. */
  predicate FreshIds(records: map<string, Record>, ids: seq<string>) {
    && (forall i, j | 0 <= i < j < |ids| :: ids[i] != ids[j])
    && (forall i | 0 <= i < |ids| :: ids[i] !in records)
  }

  /** One more insertion extends `WithChunks` by the next chunk. */
  lemma WithChunksStep(records: map<string, Record>, chunks: seq<string>, ids: seq<string>,
                       filename: string, i: nat)
    requires |ids| == |chunks| && i < |chunks|
    ensures WithChunks(records, chunks[..i + 1], ids[..i + 1], filename)
         == WithChunks(records, chunks[..i], ids[..i], filename)[ids[i] := ChunkRecord(chunks[i], filename)]
  {
    assert chunks[..i + 1][..i] == chunks[..i] && ids[..i + 1][..i] == ids[..i];
  }

  /** The keys `WithChunks` adds are exactly the ids used. */
  lemma {:induction false} WithChunksKeys(records: map<string, Record>, chunks: seq<string>,
                                          ids: seq<string>, filename: string)
    requires |ids| == |chunks|
    ensures WithChunks(records, chunks, ids, filename).Keys == records.Keys + (set id | id in ids)
  {
    if |chunks| > 0 {
      var n := |chunks| - 1;
      WithChunksKeys(records, chunks[..n], ids[..n], filename);
      assert (set id | id in ids) == (set id | id in ids[..n]) + {ids[n]} by {
        assert ids == ids[..n] + [ids[n]];
      }
    }
  }

  /** A record whose id is not drawn for any chunk keeps its value through the insertions. */
  lemma {:induction false} WithChunksKeeps(records: map<string, Record>, chunks: seq<string>,
                                           ids: seq<string>, filename: string, id: string)
    requires |ids| == |chunks|
    requires id in records && id !in ids
    ensures var after := WithChunks(records, chunks, ids, filename);
      id in after && after[id] == records[id]
  {
    if |chunks| > 0 {
      var n := |chunks| - 1;
      assert id != ids[n];
      assert id !in ids[..n] by {
        assert forall k | 0 <= k < n :: ids[..n][k] == ids[k];
      }
      WithChunksKeeps(records, chunks[..n], ids[..n], filename, id);
    }
  }

  /** Chunk `j` is stored under id `j` when no later chunk reuses that id. */
  lemma {:induction false} WithChunksHolds(records: map<string, Record>, chunks: seq<string>,
                                           ids: seq<string>, filename: string, j: nat)
    requires |ids| == |chunks| && j < |ids|
    requires forall k | j < k < |ids| :: ids[k] != ids[j]
    ensures var after := WithChunks(records, chunks, ids, filename);
      ids[j] in after && after[ids[j]] == ChunkRecord(chunks[j], filename)
  {
    var n := |chunks| - 1;
    if j < n {
      var prefix := ids[..n];
      assert prefix[j] == ids[j];
      assert forall k | j < k < n :: prefix[k] == ids[k];
      WithChunksHolds(records, chunks[..n], prefix, filename, j);
      assert chunks[..n][j] == chunks[j];
      assert ids[n] != ids[j];
    }
  }

  /** Under fresh, distinct ids each chunk's id holds that chunk and every earlier record stays. */
  lemma WithChunksContents(records: map<string, Record>, chunks: seq<string>,
                           ids: seq<string>, filename: string)
    requires |ids| == |chunks|
    requires FreshIds(records, ids)
    ensures var after := WithChunks(records, chunks, ids, filename);
      && (forall id | id in records :: id in after && after[id] == records[id])
      && (forall i | 0 <= i < |ids| :: ids[i] in after && after[ids[i]] == ChunkRecord(chunks[i], filename))
  {
    forall id | id in records
      ensures var after := WithChunks(records, chunks, ids, filename);
        id in after && after[id] == records[id]
    {
      WithChunksKeeps(records, chunks, ids, filename, id);
    }
    forall i | 0 <= i < |ids|
      ensures var after := WithChunks(records, chunks, ids, filename);
        ids[i] in after && after[ids[i]] == ChunkRecord(chunks[i], filename)
    {
      WithChunksHolds(records, chunks, ids, filename, i);
    }
  }

  /**
   * Inserting chunks under fresh, distinct ids adds exactly one record per chunk: the store
   * grows by the number of chunks.
   */
  lemma {:induction false} WithChunksCount(records: map<string, Record>, chunks: seq<string>,
                                           ids: seq<string>, filename: string)
    requires |ids| == |chunks|
    requires FreshIds(records, ids)
    ensures |WithChunks(records, chunks, ids, filename)| == |records| + |chunks|
  {
    if |chunks| > 0 {
      var n := |chunks| - 1;
      WithChunksCount(records, chunks[..n], ids[..n], filename);
      WithChunksKeys(records, chunks[..n], ids[..n], filename);
      var before := WithChunks(records, chunks[..n], ids[..n], filename);
      assert ids[n] !in before;
    }
  }

  /** The ids `uuid4` draws for a PDF of `n` chunks: the `j`-th draw names the `j`-th chunk. */
  function ChunkIds(uuid: nat -> string, n: nat): seq<string> {
    seq(n, j requires 0 <= j => uuid(j))
  }

  /** Draws from an injective generator that avoids every stored id are fresh and distinct. */
  lemma ChunkIdsFresh(records: map<string, Record>, uuid: nat -> string, n: nat)
    requires forall i: nat, j: nat | i < j :: uuid(i) != uuid(j)
    requires forall i: nat :: uuid(i) !in records
    ensures FreshIds(records, ChunkIds(uuid, n))
  {
  }

  /**
   * Chunks stored under ids drawn from an injective generator that avoids the stored ids:
   * one new record per chunk, the `j`-th chunk under the `j`-th draw, earlier records intact.
   */
  lemma ChunksIngested(records: map<string, Record>, chunks: seq<string>, uuid: nat -> string, filename: string)
    requires forall i: nat, j: nat | i < j :: uuid(i) != uuid(j)
    requires forall i: nat :: uuid(i) !in records
    ensures var after := WithChunks(records, chunks, ChunkIds(uuid, |chunks|), filename);
      && |after| == |records| + |chunks|
      && (forall id | id in records :: id in after && after[id] == records[id])
      && (forall j | 0 <= j < |chunks| :: uuid(j) in after && after[uuid(j)] == ChunkRecord(chunks[j], filename))
  {
    var ids := ChunkIds(uuid, |chunks|);
    ChunkIdsFresh(records, uuid, |chunks|);
    WithChunksCount(records, chunks, ids, filename);
    WithChunksContents(records, chunks, ids, filename);
    assert forall j | 0 <= j < |chunks| :: ids[j] == uuid(j);
  }

  /**
   * `ingest_pdf`: reads the pages, joins their text, splits it, and adds one record per chunk
   * under a freshly drawn id, tagged with the file's base name.
   */
  method IngestPdf(db: Store, path: string, pages: seq<Option<string>>,
                   split: string -> seq<string>, uuid: nat -> string)
    requires forall i: nat, j: nat | i < j :: uuid(i) != uuid(j)
    requires forall i: nat :: uuid(i) !in db.records
    modifies db
    ensures var chunks := split(DocumentText(pages));
      db.records == WithChunks(old(db.records), chunks, ChunkIds(uuid, |chunks|), Basename(path))
    ensures var chunks := split(DocumentText(pages));
      && |db.records| == |old(db.records)| + |chunks|
      && (forall id | id in old(db.records) :: id in db.records && db.records[id] == old(db.records)[id])
      && (forall j | 0 <= j < |chunks| :: uuid(j) in db.records && db.records[uuid(j)] == ChunkRecord(chunks[j], Basename(path)))
  {
    var filename := Basename(path);
    var text := DocumentText(pages);
    var chunks := split(text);
    var ids := ChunkIds(uuid, |chunks|);
    ghost var before := db.records;
    var i := 0;
    while i < |chunks|
      invariant 0 <= i <= |chunks|
      invariant db.records == WithChunks(before, chunks[..i], ids[..i], filename)
    {
      WithChunksStep(before, chunks, ids, filename, i);
      ghost var prev := db.records;
      db.AddText(ids[i], chunks[i], map["source" := Str(filename)]);
      assert db.records == prev[ids[i] := ChunkRecord(chunks[i], filename)];
      i := i + 1;
    }
    assert chunks[..i] == chunks && ids[..i] == ids;
    ChunksIngested(before, chunks, uuid, filename);
  }
}
