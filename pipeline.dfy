/**
 * `process_single_pdf` (preprocess_pdfs.py) after table extraction: sort
 * the tables into buckets, parse each bucket, build the sentence list, cut
 * it into chunks of five and number the chunks from 1.
 */
module Pipeline {
  import opened Strings
  import opened Tables
  import BasicInfo
  import Goals
  import Evaluation
  import Textbooks
  import Weekly
  import Synthesis
  import Chunking

  /** One element of the chunk payload. */
  datatype Chunk = Chunk(chunkId: nat, sourcePdf: string, metadata: map<string, string>, text: string)

  /** `chunk_size=5`. */
  const ChunkSize: nat := 5

  /** Lines 209-217: the payload comprehension over `enumerate(chunks)`. */
  function Payload(chunks: seq<seq<string>>, sourcePdf: string, info: map<string, string>): (r: seq<Chunk>)
    ensures |r| == |chunks|
  {
    seq(|chunks|, i requires 0 <= i < |chunks| => Chunk(i + 1, sourcePdf, info, Join(chunks[i], "\n")))
  }

  /** The two input shapes the parsers index without a guard. */
  predicate Parsable(tables: seq<Table>) {
    Evaluation.EvalShaped(Bucket(tables, Evaluation)) && Textbooks.NoEmptyRow(Bucket(tables, Texts))
  }

  /** The sentence list of a PDF whose extracted tables, over all pages in order, are `tables`. */
  function SentencesOf(tables: seq<Table>, parse: Evaluation.FloatParser): seq<string>
    requires Parsable(tables)
  {
    Synthesis.AllSentences(
      BasicInfo.InfoOf(Bucket(tables, Basic)),
      Goals.GoalsOf(Bucket(tables, Goals)),
      Weekly.WeeklyOf(Bucket(tables, Tables.Weekly)),
      Evaluation.EvalOf(Bucket(tables, Evaluation), parse),
      Textbooks.TextsOf(Bucket(tables, Texts)))
  }

  /** The payload `process_single_pdf` returns for the PDF named `pdfName`. */
  function PdfPayload(tables: seq<Table>, pdfName: string, parse: Evaluation.FloatParser): seq<Chunk>
    requires Parsable(tables)
  {
    Payload(Chunking.Chunks(SentencesOf(tables, parse), ChunkSize), pdfName, BasicInfo.InfoOf(Bucket(tables, Basic)))
  }

  /** The chunk texts, in payload order. */
  function ChunkTexts(p: seq<Chunk>): seq<string> {
    seq(|p|, i requires 0 <= i < |p| => p[i].text)
  }

  /**
   * The payload numbers its chunks 1, 2, …, m with m = ceil(n / 5) for n
   * sentences (m chunks of five hold at least n sentences, m - 1 fewer); every chunk carries the PDF's name and the basic-info dict;
   * and joining the chunk texts with newlines gives the sentences joined
   * with newlines, so chunking loses and reorders nothing.
   */
  lemma PayloadFacts(tables: seq<Table>, pdfName: string, parse: Evaluation.FloatParser)
    requires Parsable(tables)
    ensures var p := PdfPayload(tables, pdfName, parse); var s := SentencesOf(tables, parse);
      (|p| - 1) * ChunkSize < |s| <= |p| * ChunkSize
      && (forall i :: 0 <= i < |p| ==>
            p[i].chunkId == i + 1 && p[i].sourcePdf == pdfName && p[i].metadata == BasicInfo.InfoOf(Bucket(tables, Basic)))
      && Join(ChunkTexts(p), "\n") == Join(s, "\n")
  {
    var s := SentencesOf(tables, parse);
    var groups := Chunking.Chunks(s, ChunkSize);
    Chunking.ChunksCount(s, ChunkSize);
    Chunking.ChunksShape(s, ChunkSize);
    Chunking.ChunksFlatten(s, ChunkSize);
    PayloadJoin(groups, pdfName, BasicInfo.InfoOf(Bucket(tables, Basic)));
  }

  /** Joining the payload texts with newlines joins all the grouped sentences when no group is empty. */
  lemma PayloadJoin(groups: seq<seq<string>>, pdfName: string, info: map<string, string>)
    requires forall i :: 0 <= i < |groups| ==> groups[i] != []
    ensures Join(ChunkTexts(Payload(groups, pdfName, info)), "\n") == Join(Flatten(groups), "\n")
  {
    Strings.JoinGroups(groups, "\n");
    assert ChunkTexts(Payload(groups, pdfName, info)) == seq(|groups|, i requires 0 <= i < |groups| => Join(groups[i], "\n"));
  }

  /** `process_single_pdf` from line 163 on, over the extracted tables. */
  method ProcessSinglePdf(tables: seq<Table>, pdfName: string, parse: Evaluation.FloatParser) returns (payload: seq<Chunk>)
    requires Parsable(tables)
    ensures payload == PdfPayload(tables, pdfName, parse)
  {
    var buckets := CollectTables(tables);
    var basic, goalTables, evalTables, textTables, weeklyTables := buckets.basic, buckets.goals, buckets.evaluation, buckets.texts, buckets.weekly;
    assert basic == Bucket(tables, Basic) by { assert buckets.Get(Basic) == basic; }
    assert goalTables == Bucket(tables, Goals) by { assert buckets.Get(Goals) == goalTables; }
    assert evalTables == Bucket(tables, Evaluation) by { assert buckets.Get(Evaluation) == evalTables; }
    assert textTables == Bucket(tables, Texts) by { assert buckets.Get(Texts) == textTables; }
    assert weeklyTables == Bucket(tables, Tables.Weekly) by { assert buckets.Get(Tables.Weekly) == weeklyTables; }
    var info := BasicInfo.ParseBasicInfo(basic);
    var goals := Goals.ParseGoals(goalTables);
    var evalDict := Evaluation.ParseEval(evalTables, parse);
    var texts := Textbooks.ParseTexts(textTables);
    var weekly := Weekly.ParseWeekly(weeklyTables);
    var sentences := Synthesis.BuildSentences(info, goals, weekly, evalDict, texts);
    assert sentences == SentencesOf(tables, parse);
    var chunks := Chunking.ChunkBySentences(sentences, ChunkSize);
    payload := Payload(chunks, pdfName, info);
  }
}
