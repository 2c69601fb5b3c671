/** The `Chunk` record the chunker returns, its identifier scheme, and its conversion
    to the plain dictionaries handed to a FAISS index. */
module Chunks {
  import opened PyText

  /** The metadata `chunk_text` attaches to every chunk: the index of the semantic unit
      the chunk comes from, its index among the pieces of an oversized unit (absent for
      a unit that fits), and whether the chunk mentions mathematics. */
  datatype Metadata = Metadata(unitIndex: int, subIndex: Option<int>, hasMath: bool)

  datatype Chunk = Chunk(
    chunkId: string,
    text: string,
    tokenLength: int,
    startChar: int,
    endChar: int,
    metadata: Option<Metadata>)

  /** A value of a serialised dictionary. */
  datatype Value = Str(s: string) | Int(i: int) | Bool(b: bool) | Dict(entries: map<string, Value>)

  /** `document_id or 'doc'`: a missing or empty identifier falls back to "doc". */
  function DocPrefix(documentId: Option<string>): (p: string)
    ensures p != []
    ensures documentId.Some? && documentId.value != [] ==> p == documentId.value
  {
    if documentId.Some? && documentId.value != [] then documentId.value else "doc"
  }

  /** `f"{document_id or 'doc'}_chunk_{len(chunks)}"`. */
  function ChunkId(documentId: Option<string>, k: nat): string {
    DocPrefix(documentId) + "_chunk_" + NatToString(k)
  }

  /** Within one document, different positions get different identifiers. */
  lemma ChunkIdInjective(documentId: Option<string>, m: nat, n: nat)
    requires ChunkId(documentId, m) == ChunkId(documentId, n)
    ensures m == n
  {
    var head := DocPrefix(documentId) + "_chunk_";
    assert ChunkId(documentId, m)[|head|..] == NatToString(m);
    assert ChunkId(documentId, n)[|head|..] == NatToString(n);
    NatToStringInjective(m, n);
  }

  /** `self.metadata or {}`, with the keys `chunk_text` writes. */
  function MetadataDict(md: Option<Metadata>): (d: map<string, Value>)
    ensures md.None? ==> d == map[]
    ensures md.Some? ==> "unit_index" in d && "has_math" in d && ("sub_index" in d <==> md.value.subIndex.Some?)
  {
    match md
    case None => map[]
    case Some(m) =>
      var d := map["unit_index" := Int(m.unitIndex), "has_math" := Bool(m.hasMath)];
      if m.subIndex.Some? then d["sub_index" := Int(m.subIndex.value)] else d
  }

  /** The keys of a serialised chunk. */
  const ChunkFields: set<string> := {"chunk_id", "text", "token_length", "start_char", "end_char", "metadata"}

  /** `Chunk.to_dict`. */
  function ToDict(c: Chunk): (d: map<string, Value>)
    ensures d.Keys == ChunkFields
  {
    map[
      "chunk_id" := Str(c.chunkId),
      "text" := Str(c.text),
      "token_length" := Int(c.tokenLength),
      "start_char" := Int(c.startChar),
      "end_char" := Int(c.endChar),
      "metadata" := Dict(MetadataDict(c.metadata))]
  }

  /** Reads a metadata dictionary back; an empty one stands for no metadata. */
  function MetadataFromDict(d: map<string, Value>): Option<Option<Metadata>> {
    if d == map[] then Some(None)
    else if "unit_index" in d && d["unit_index"].Int? && "has_math" in d && d["has_math"].Bool? then
      var sub := if "sub_index" in d && d["sub_index"].Int? then Some(d["sub_index"].i) else None;
      Some(Some(Metadata(d["unit_index"].i, sub, d["has_math"].b)))
    else None
  }

  /** Reads a serialised chunk back, if it has the shape `to_dict` produces. */
  function FromDict(d: map<string, Value>): Option<Chunk> {
    if && "chunk_id" in d && d["chunk_id"].Str?
       && "text" in d && d["text"].Str?
       && "token_length" in d && d["token_length"].Int?
       && "start_char" in d && d["start_char"].Int?
       && "end_char" in d && d["end_char"].Int?
       && "metadata" in d && d["metadata"].Dict?
    then
      match MetadataFromDict(d["metadata"].entries)
      case None => None
      case Some(md) =>
        Some(Chunk(d["chunk_id"].s, d["text"].s, d["token_length"].i, d["start_char"].i, d["end_char"].i, md))
    else None
  }

  /** Serialising loses nothing: the dictionary reads back as the same chunk. Missing
      metadata and metadata with its keys are told apart, since the chunker's metadata
      always has `unit_index` and `has_math`. */
  lemma ToDictRoundTrip(c: Chunk)
    ensures FromDict(ToDict(c)) == Some(c)
  {
    var d := MetadataDict(c.metadata);
    if c.metadata.Some? {
      var m := c.metadata.value;
      assert "unit_index" in d && "has_math" in d;
      assert d["unit_index"] == Int(m.unitIndex) && d["has_math"] == Bool(m.hasMath);
      assert m.subIndex.Some? ==> d["sub_index"] == Int(m.subIndex.value);
    }
  }

  /** Different chunks serialise differently. */
  lemma ToDictInjective(c1: Chunk, c2: Chunk)
    requires ToDict(c1) == ToDict(c2)
    ensures c1 == c2
  {
    ToDictRoundTrip(c1);
    ToDictRoundTrip(c2);
  }

  lemma FaissRoundTrip(chunks: seq<Chunk>)
    ensures forall i :: 0 <= i < |chunks| ==> FromDict(ToDict(chunks[i])) == Some(chunks[i])
  {
    forall i | 0 <= i < |chunks| ensures FromDict(ToDict(chunks[i])) == Some(chunks[i]) {
      ToDictRoundTrip(chunks[i]);
    }
  }

  /** `chunks_to_faiss_format`: one dictionary per chunk, in order, each reading back as
      its chunk. */
  function ChunksToFaissFormat(chunks: seq<Chunk>): (r: seq<map<string, Value>>)
    ensures |r| == |chunks|
    ensures forall i :: 0 <= i < |r| ==> r[i].Keys == ChunkFields && FromDict(r[i]) == Some(chunks[i])
  {
    FaissRoundTrip(chunks);
    seq(|chunks|, i requires 0 <= i < |chunks| => ToDict(chunks[i]))
  }
}
