/**
 * `load_documents` (data_loader.py) after the JSON file is read: one
 * `Document` per payload record, with an id made of the PDF name and the
 * chunk id, and the record's metadata extended by those two fields.
 */
module Loader {
  import opened Wrappers
  import opened Strings
  import Tables
  import Evaluation
  import Pipeline

  /** The JSON values the loader handles: `null`, integers and strings. */
  datatype Value = Null | Int(i: int) | Str(s: string)

  /** f"{v}" of a value. */
  function Display(v: Value): string {
    match v
    case Null => "None"
    case Int(i) => IntToString(i)
    case Str(s) => s
  }

  /** One element of the JSON list: each field is `None` when its key is absent. */
  datatype Record = Record(sourcePdf: Option<Value>, chunkId: Option<Value>, text: Option<Value>,
                           metadata: Option<map<string, Value>>)

  /** The `Document` dataclass (lines 9-13). */
  datatype Document = Document(id: string, text: Value, metadata: map<string, Value>)

  /** The error of `item["text"]` on a record without that key. */
  datatype LoadError = KeyError(key: string)

  /** f"{item.get('source_pdf','unknown')}_chunk{item.get('chunk_id', idx+1)}". */
  function DocId(item: Record, idx: nat): string {
    Display(item.sourcePdf.GetOr(Str("unknown"))) + "_chunk" + Display(item.chunkId.GetOr(Int(idx + 1)))
  }

  /** The copied metadata with `source_pdf` and `chunk_id` set to the raw `item.get` results. */
  function Meta(item: Record): map<string, Value> {
    item.metadata.GetOr(map[])["source_pdf" := item.sourcePdf.GetOr(Null)]["chunk_id" := item.chunkId.GetOr(Null)]
  }

  /** The document of the record at position `idx`, or the `KeyError` of a record without text. */
  function DocumentOf(item: Record, idx: nat): Result<Document, LoadError> {
    match item.text
    case None => Failure(KeyError("text"))
    case Some(t) => Success(Document(DocId(item, idx), t, Meta(item)))
  }

  /** The result of the loop: the documents in record order, or the first record's error. */
  function Load(raw: seq<Record>): Result<seq<Document>, LoadError> {
    if raw == [] then Success([])
    else
      match Load(raw[..|raw| - 1])
      case Failure(e) => Failure(e)
      case Success(docs) =>
        match DocumentOf(raw[|raw| - 1], |raw| - 1)
        case Failure(e) => Failure(e)
        case Success(doc) => Success(docs + [doc])
  }

  /** Every record has a `text` key. */
  predicate AllHaveText(raw: seq<Record>) {
    forall i :: 0 <= i < |raw| ==> raw[i].text.Some?
  }

  /**
   * Loading fails exactly when some record has no text, and then with a
   * `KeyError` on "text"; otherwise it gives one document per record, in
   * record order, each the document of its record at its position.
   */
  lemma {:induction false} LoadShape(raw: seq<Record>)
    ensures Load(raw).Failure? <==> !AllHaveText(raw)
    ensures Load(raw).Failure? ==> Load(raw).error == KeyError("text")
    ensures Load(raw).Success? ==>
      |Load(raw).value| == |raw| && forall i :: 0 <= i < |raw| ==> DocumentOf(raw[i], i) == Success(Load(raw).value[i])
  {
    if raw != [] {
      var init := raw[..|raw| - 1];
      LoadShape(init);
      assert forall i :: 0 <= i < |init| ==> init[i] == raw[i];
    }
  }

  /**
   * What each document holds: the record's text unchanged; the record's
   * metadata with only `source_pdf` and `chunk_id` replaced, both by the raw
   * values `item.get` returns (`null` when the key is absent); and an id that
   * falls back to "unknown" and to the 1-based position.
   */
  lemma DocumentFields(item: Record, idx: nat)
    requires item.text.Some?
    ensures var doc := DocumentOf(item, idx).value;
      doc.text == item.text.value
      && doc.metadata["source_pdf"] == item.sourcePdf.GetOr(Null)
      && doc.metadata["chunk_id"] == item.chunkId.GetOr(Null)
      && (forall k :: k != "source_pdf" && k != "chunk_id" ==>
            (k in doc.metadata <==> k in item.metadata.GetOr(map[]))
            && (k in doc.metadata ==> doc.metadata[k] == item.metadata.value[k]))
      && (item.sourcePdf.None? ==> doc.id[..7] == "unknown")
      && (item.chunkId.None? ==> doc.id[|doc.id| - |IntToString(idx + 1)|..] == IntToString(idx + 1))
  {
    var doc := DocumentOf(item, idx).value;
    var head := Display(item.sourcePdf.GetOr(Str("unknown"))) + "_chunk";
    assert doc.id == head + Display(item.chunkId.GetOr(Int(idx + 1)));
    if item.sourcePdf.None? {
      assert head == "unknown" + "_chunk";
    }
  }

  /** The id tells chunks apart: two records with the same source and different integer chunk ids get different ids. */
  lemma IdsDistinct(r1: Record, r2: Record, idx1: nat, idx2: nat)
    requires r1.sourcePdf == r2.sourcePdf
    requires r1.chunkId.Some? && r1.chunkId.value.Int? && r2.chunkId.Some? && r2.chunkId.value.Int?
    requires r1.chunkId != r2.chunkId
    ensures DocId(r1, idx1) != DocId(r2, idx2)
  {
    var head := Display(r1.sourcePdf.GetOr(Str("unknown"))) + "_chunk";
    var m, n := r1.chunkId.value.i, r2.chunkId.value.i;
    assert DocId(r1, idx1) == head + IntToString(m);
    assert DocId(r2, idx2) == head + IntToString(n);
    if head + IntToString(m) == head + IntToString(n) {
      assert IntToString(m) == (head + IntToString(m))[|head|..];
      assert IntToString(n) == (head + IntToString(n))[|head|..];
      IntToStringInjective(m, n);
    }
  }

  /** The JSON record `process_all_pdfs` writes for a payload chunk. */
  function RecordOf(c: Pipeline.Chunk): Record {
    Record(Some(Str(c.sourcePdf)), Some(Int(c.chunkId)), Some(Str(c.text)),
           Some(map k | k in c.metadata :: Str(c.metadata[k])))
  }

  /**
   * Loading the records of a payload never fails, and gives documents whose
   * ids are pairwise distinct and whose texts are the chunk texts.
   */
  lemma LoadPayload(p: seq<Pipeline.Chunk>, raw: seq<Record>)
    requires forall i :: 0 <= i < |p| ==> p[i].chunkId == i + 1
    requires forall i, j :: 0 <= i < j < |p| ==> p[i].sourcePdf == p[j].sourcePdf
    requires |raw| == |p| && forall i :: 0 <= i < |p| ==> raw[i] == RecordOf(p[i])
    ensures Load(raw).Success? && |Load(raw).value| == |p|
    ensures forall i :: 0 <= i < |p| ==> Load(raw).value[i].text == Str(p[i].text)
    ensures forall i, j :: 0 <= i < j < |p| ==> Load(raw).value[i].id != Load(raw).value[j].id
  {
    LoadShape(raw);
    var docs := Load(raw).value;
    forall i, j | 0 <= i < j < |p| ensures docs[i].id != docs[j].id {
      assert docs[i].id == DocId(raw[i], i) && docs[j].id == DocId(raw[j], j);
      IdsDistinct(raw[i], raw[j], i, j);
    }
  }

  /**
   * End to end: the records of one PDF's payload load without error, one
   * document per chunk, with pairwise distinct ids.
   */
  lemma LoadPdfPayload(tables: seq<Tables.Table>, pdfName: string, parse: Evaluation.FloatParser, raw: seq<Record>)
    requires Pipeline.Parsable(tables)
    requires var p := Pipeline.PdfPayload(tables, pdfName, parse);
      |raw| == |p| && forall i :: 0 <= i < |p| ==> raw[i] == RecordOf(p[i])
    ensures Load(raw).Success? && |Load(raw).value| == |Pipeline.PdfPayload(tables, pdfName, parse)|
    ensures forall i, j :: 0 <= i < j < |raw| ==> Load(raw).value[i].id != Load(raw).value[j].id
  {
    Pipeline.PayloadFacts(tables, pdfName, parse);
    LoadPayload(Pipeline.PdfPayload(tables, pdfName, parse), raw);
  }

  lemma LoadStep(raw: seq<Record>, k: nat)
    requires k < |raw|
    ensures Load(raw[..k + 1]) == match Load(raw[..k])
      case Failure(e) => Failure(e)
      case Success(docs) =>
        match DocumentOf(raw[k], k)
        case Failure(e) => Failure(e)
        case Success(doc) => Success(docs + [doc])
  {
    assert raw[..k + 1][..k] == raw[..k];
  }

  /** The loop of `load_documents` (lines 24-31), stopping at the first record without text. */
  method LoadDocuments(raw: seq<Record>) returns (r: Result<seq<Document>, LoadError>)
    ensures r == Load(raw)
  {
    var docs: seq<Document> := [];
    for idx := 0 to |raw|
      invariant Load(raw[..idx]) == Success(docs)
    {
      LoadStep(raw, idx);
      var item := raw[idx];
      var docId := Display(item.sourcePdf.GetOr(Str("unknown"))) + "_chunk" + Display(item.chunkId.GetOr(Int(idx + 1)));
      if item.text.None? {
        LoadFailed(raw, idx + 1);
        return Failure(KeyError("text"));
      }
      var text := item.text.value;
      var meta := item.metadata.GetOr(map[]);
      meta := meta["source_pdf" := item.sourcePdf.GetOr(Null)];
      meta := meta["chunk_id" := item.chunkId.GetOr(Null)];
      docs := docs + [Document(docId, text, meta)];
    }
    assert raw[..|raw|] == raw;
    return Success(docs);
  }

  /** Once a prefix fails, the whole list fails with the same error. */
  lemma {:induction false} LoadFailed(raw: seq<Record>, k: nat)
    requires k <= |raw| && Load(raw[..k]).Failure?
    ensures Load(raw) == Load(raw[..k])
    decreases |raw| - k
  {
    if k < |raw| {
      LoadStep(raw, k);
      LoadFailed(raw, k + 1);
    } else {
      assert raw[..k] == raw;
    }
  }
}
