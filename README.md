# Syllabus PDF preprocessing, modelled in Dafny

This project models the table-to-chunk pipeline of a course-syllabus RAG system. It covers two files:

- `preprocess_pdfs.py`, from the point where the PDF library has handed back the tables of every page. A table is a list of rows of optional text cells.
  - `norm` normalises whitespace.
  - `collect_tables` sorts tables into five buckets using five keyword signatures tried in a fixed priority: weekly plan, evaluation, goals, textbooks, basic info.
  - Five parsers turn each bucket into a value:
    - a basic-info dict;
    - a goal list;
    - an insertion-ordered evaluation dict with optional numbers;
    - a four-slot textbook record;
    - a list of weekly sentences.
  - `process_single_pdf` turns these into a list of Korean sentences, cuts it into chunks of five and numbers the chunks from 1.
- `data_loader.py`: `load_documents` turns each stored chunk record into a `Document`. The id is made of the PDF name and the chunk id, and the metadata gets those two fields overlaid.

Files and modules:

| file | module | what it holds |
|---|---|---|
| `wrappers.dfy` | `Wrappers` | `Option`, `Result` |
| `strings.dfy` | `Strings` | `sep.join`; substring test; list flattening; `f"{int}"` with its round trip |
| `normalize.dfy` | `Normalize` | `norm`, `strip`, digit filtering, removal of `(...)` spans, ASCII lower-casing |
| `tables.dfy` | `Tables` | cells, rows and tables; the five signatures; the dispatch; the buckets; data rows (`t[1:]`) |
| `basic_info.dfy` | `BasicInfo` | `parse_basic_info` |
| `goals.dfy` | `Goals` | `parse_goals` |
| `evaluation.dfy` | `Evaluation` | `parse_eval`, with its dict as keys in insertion order plus a map |
| `textbooks.dfy` | `Textbooks` | `parse_texts` |
| `weekly.dfy` | `Weekly` | `parse_weekly` |
| `sentences.dfy` | `Synthesis` | the sentence list of `process_single_pdf` |
| `chunking.dfy` | `Chunking` | `chunk_by_sentences` |
| `pipeline.dfy` | `Pipeline` | `process_single_pdf` end to end, with the chunk payload |
| `data_loader.dfy` | `Loader` | `load_documents` and `Document` |

Each loop of the source is a Dafny method with a `while` or `for` loop. Each method is proved equal to a function over its inputs, and the source's promises are proved as lemmas about those functions. Python's `float()` is a parameter of type `string -> Option<real>`, with `None` where `float` raises. The rest of the core is modelled as the code does it, except as listed under "## Left out":

- whitespace is the character set of `str.isspace`;
- the evaluation dict keeps its insertion order (a key list beside a map);
- `int()` truncates toward zero;
- an empty string and `None` are both falsy.

Three behaviours of the code are easy to miss:

- **Basic tables need three keys.** `is_basic` holds only when at least three of its eight keys occur in the table (`preprocess_pdfs.py:38`). A table holding only two of them is not taken as a basic-information table; it is dropped unless an earlier signature holds.
- **Percentages are truncated.** The evaluation percentage is `int(ratio*100)`, which truncates toward zero rather than rounding (`preprocess_pdfs.py:193`).
- **Metadata is not copied.** Every chunk's `metadata` is the same `info` dict (`preprocess_pdfs.py:213`).

Documents are `Loader.Document(id, text, metadata)`, the `Document` class of `data_loader.py:9-13`; fields of a record other than those `load_documents` reads are not modelled.

## Model

| member | source | states |
|---|---|---|
| Normalize.Collapse | preprocess_pdfs.py:13 | definition of `re.sub(r"\s+", " ", x)`; CollapseExact states what it returns |
| Normalize.CollapseExact | preprocess_pdfs.py:13 | `re.sub(r"\s+", " ", x)` is the words of `x` joined by single spaces, with at most one space before them and at most one after them |
| Normalize.Words | preprocess_pdfs.py:13 | definition of `str.split()` with no argument: the maximal runs of non-whitespace characters, in order |
| Normalize.Strip | preprocess_pdfs.py:13 | definition of `str.strip()` over the `str.isspace` set; StripSlice states what it returns |
| Normalize.NormText | preprocess_pdfs.py:12-13 | definition of `norm` on text: collapse, then strip; NormWords states what it returns |
| Normalize.NormWords | preprocess_pdfs.py:12-13 | `norm(x)` is `" ".join(x.split())`: the words of the cell in order, exactly one plain space between two words, and nothing else |
| Normalize.WordsOfNorm | preprocess_pdfs.py:12-13 | `norm` keeps the words of its input: none is split, joined, added or dropped |
| Normalize.Norm | preprocess_pdfs.py:12-13 | `norm` on a cell: `None` becomes the empty string, any text is normalised by NormText |
| Normalize.NormNormal | preprocess_pdfs.py:12-13 | the result of `norm` has no whitespace at either end, no two whitespace characters in a row, and no whitespace other than the plain space |
| Normalize.NormIdempotent | preprocess_pdfs.py:12-13 | normalising a normalised cell changes nothing |
| Normalize.NonSpaceOfNorm | preprocess_pdfs.py:12-13 | `norm` keeps the text of the cell: its non-whitespace characters are exactly those of the input, in order, so `norm` changes only whitespace |
| Normalize.KeepOfNorm | preprocess_pdfs.py:12-13 | every character filter that drops whitespace sees the same characters before and after `norm` |
| Normalize.NormFixed | preprocess_pdfs.py:12-13 | a string already of normal shape is left unchanged: that shape characterises the results of `norm` |
| Normalize.StripSlice | preprocess_pdfs.py:13 | `strip()` returns a slice of its input with no whitespace at either end; everything it removed was whitespace |
| Normalize.KeepDigits | preprocess_pdfs.py:131 | definition of `re.sub(r"[^0-9]", "", s)`: the ASCII digits of `s` in order; KeepDigitsShape states its properties |
| Normalize.KeepDigitsShape | preprocess_pdfs.py:131 | `re.sub(r"[^0-9]", "", s)` holds only digits, and is empty exactly when `s` has no digit |
| Normalize.KeepDigitsOfNorm | preprocess_pdfs.py:130-131 | normalising a cell neither adds nor removes a digit, so the week number can be read from the raw cell |
| Normalize.StripParens | preprocess_pdfs.py:75 | definition of the lazy `re.sub(r"\(.*?\)", "", s)`: each `(` up to the first following `)` on the same line is removed; StripParensKeepsPlain, StripParensDropsSpan and StripParensKeepsUnclosed state what it returns |
| Normalize.StripParensKeepsPlain | preprocess_pdfs.py:75 | text before the first `(` is kept as written, and the substitution goes on after it |
| Normalize.StripParensDropsSpan | preprocess_pdfs.py:75 | a span `(`…`)` with no `)` and no newline inside is removed whole, and the substitution goes on after it |
| Normalize.StripParensKeepsUnclosed | preprocess_pdfs.py:75 | a `(` with no `)` before the next newline is kept, and the substitution goes on after it |
| Normalize.StripParensClean | preprocess_pdfs.py:75 | after the lazy `\(.*?\)` substitution, no `(`…`)` span within one line remains |
| Normalize.StripParensNoOpen | preprocess_pdfs.py:75 | a key with no `(` is left unchanged |
| Normalize.WithoutNewlineAfterNorm | preprocess_pdfs.py:112 | `.replace("\n", "")` after `norm` changes nothing, because `norm` leaves no newline |
| Tables.KeptCellsMember | preprocess_pdfs.py:31-38 | a string is among the kept cells of a row exactly when it is the normalised text of some truthy cell: falsy cells leave nothing |
| Tables.KeptCellsAppend | preprocess_pdfs.py:31-38 | the cells are filtered one by one, in order: the kept cells of `a + b` are those of `a` followed by those of `b` |
| Tables.KeptCellsOne | preprocess_pdfs.py:31-38 | a single cell is kept, normalised, exactly when it is truthy |
| Tables.IsWeekly | preprocess_pdfs.py:18-21 | definition of `is_weekly`: at least two of the six weekly keywords in the lower-cased, space-joined header |
| Tables.IsEval | preprocess_pdfs.py:23-25 | definition of `is_eval`: the lower-cased header holds both "평가항목" and "반영비율" |
| Tables.IsGoals | preprocess_pdfs.py:27-29 | definition of `is_goals`: the lower-cased header holds "교육목표" |
| Tables.IsTexts | preprocess_pdfs.py:31-33 | definition of `is_texts`: the lower-cased text of all truthy cells holds a textbook keyword |
| Tables.IsBasic | preprocess_pdfs.py:35-38 | definition of `is_basic`: at least three of the eight basic keywords in the text of all truthy cells, not lower-cased |
| Tables.CountInFound | preprocess_pdfs.py:21 | on distinct keywords, `sum(k in text for k in keys)` is the number of keywords that occur in the text |
| Tables.SignatureCounts | preprocess_pdfs.py:18-38 | a table is weekly exactly when at least two distinct weekly keywords occur in its lower-cased header, and basic exactly when at least three distinct basic keywords occur in its cell text |
| Tables.Classify | preprocess_pdfs.py:50-61 | a table goes nowhere exactly when it is empty, has an empty header, or matches no signature; otherwise it goes to a category whose signature holds, and no category earlier in the priority holds |
| Tables.ClassifyIsFirstMatch | preprocess_pdfs.py:52-61 | for a table that is not skipped, the category is the first in weekly, evaluation, goals, texts, basic order whose signature holds |
| Tables.WeeklyWins | preprocess_pdfs.py:18-21 | a table with at least two weekly keywords in its lower-cased header is always weekly |
| Tables.HeaderDecides | preprocess_pdfs.py:18-29 | two tables with the same header row that classify as weekly, evaluation or goals classify alike: those signatures read only the header |
| Tables.CellMakesTexts | preprocess_pdfs.py:31-33 | one truthy cell anywhere in the table whose lower-cased text holds a textbook keyword makes `is_texts` hold |
| Tables.CollectTables | preprocess_pdfs.py:49-61 | each bucket holds exactly the input tables classified into it, in input order |
| Tables.BucketMembers | preprocess_pdfs.py:50-61 | a table is in bucket `c` exactly when it is an input table classified as `c` |
| Tables.BucketsPartition | preprocess_pdfs.py:50-61 | the five bucket sizes plus the number of dropped tables equal the number of input tables |
| Tables.DataRowsMember | preprocess_pdfs.py:127 | the rows the parsers read by `t[1:]` are exactly the rows at index 1 or later of some table |
| BasicInfo.RowPairs | preprocess_pdfs.py:73-74 | `k` kept cells give `k // 2` pairs, so an odd trailing cell is ignored |
| BasicInfo.RowPairsAt | preprocess_pdfs.py:73-76 | pair `j` is cells `2j` and `2j + 1` |
| BasicInfo.KeyedAt | preprocess_pdfs.py:75-76 | the key of pair `j` is its first cell with `(...)` spans removed and then stripped; the value is unchanged |
| BasicInfo.KeyOfClean | preprocess_pdfs.py:75 | every key has no `(...)` span and no whitespace at either end |
| BasicInfo.KeyDropsSpan | preprocess_pdfs.py:75 | in a key cell with one closed span, the span goes, the text before it stays as written and the text after it is cleaned the same way, before the whitespace at the ends is stripped |
| BasicInfo.ApplyLookup | preprocess_pdfs.py:77-78 | key `k` is present exactly when it was already present or some pair with non-empty key and value has it; its value is that of the last such pair; an untouched key keeps its earlier value |
| BasicInfo.InfoLookup | preprocess_pdfs.py:68-79 | the same last-write-wins lookup over every row of every table |
| BasicInfo.InfoWellFormed | preprocess_pdfs.py:75-78 | every stored key is non-empty, without `(...)` spans and stripped; every stored value is non-empty |
| BasicInfo.StoreRow | preprocess_pdfs.py:73-78 | the stepped pairing loop stores the keyed pairs of one row's kept cells, in order |
| BasicInfo.StoreTable | preprocess_pdfs.py:71-78 | the loop over a table's rows, header included, stores the pairs of every row in order |
| BasicInfo.ParseBasicInfo | preprocess_pdfs.py:68-79 | the dict equals the last-write-wins application of all pairs, and is well formed |
| Goals.GoalsMember | preprocess_pdfs.py:81-87 | `g` is a goal exactly when some non-header row of some table has a truthy first cell whose normalised text is `g` |
| Goals.HeaderIgnored | preprocess_pdfs.py:84 | replacing any table's header row leaves the goals unchanged |
| Goals.GoalsAppend | preprocess_pdfs.py:83-86 | the goals of two table lists in sequence are the goals of the first followed by those of the second |
| Goals.GoalsNormal | preprocess_pdfs.py:86 | every goal has normal whitespace |
| Goals.ParseGoals | preprocess_pdfs.py:81-87 | the loop returns the goal list `GoalsOf` of the inputs |
| Evaluation.Percent | preprocess_pdfs.py:100-103 | the ratio is absent exactly when parsing failed; otherwise it times 100 is the parsed number |
| Evaluation.PutValid | preprocess_pdfs.py:105 | storing a key keeps the dict keys distinct and equal to the keys with values |
| Evaluation.KeysInFirstOrder | preprocess_pdfs.py:104-105 | the dict keys are the non-empty item names in order of first appearance, without repeats |
| Evaluation.StoreRowsLookup | preprocess_pdfs.py:104-105 | an item is present exactly when it is non-empty and names a row; its entry is that of the last row naming it, including rows whose numbers did not parse |
| Evaluation.KeysIgnoreParser | preprocess_pdfs.py:96-105 | which items are stored, and in which order, does not depend on number parsing: a parse failure never drops an item |
| Evaluation.EvalFacts | preprocess_pdfs.py:89-106 | over all tables, header rows skipped: the dict is valid, has no empty item, keeps first-seen order, and holds the last row's entry |
| Evaluation.ParseEval | preprocess_pdfs.py:89-106 | the loop returns the dict `EvalOf` of the inputs |
| Textbooks.SlotOfPriority | preprocess_pdfs.py:114-121 | a row's key selects the first slot whose keyword it contains, in the order 주교재, 참고교재, 학습준비사항, 수강학생 유의, and none when it contains none |
| Textbooks.SlotValues | preprocess_pdfs.py:114-121 | the two textbook slots are the newline join of all their values, leading empty values dropped; the other two slots hold the last value; each of the four is `None` when no row selected it |
| Textbooks.NoMatchNoTexts | preprocess_pdfs.py:109 | with no matching row the record has all four slots `None` |
| Textbooks.ParseTexts | preprocess_pdfs.py:108-122 | the loop returns the record `TextsOf` of the inputs |
| Weekly.RowSentence | preprocess_pdfs.py:128-147 | definition of one loop iteration of `parse_weekly`: no sentence for a short row or a first cell without digits, otherwise the topic sentence with its optional clauses; RowSentenceKept and SentenceOpens state its properties |
| Weekly.RowSentenceKept | preprocess_pdfs.py:128-147 | a row yields exactly one sentence when it has two cells and its raw first cell holds a digit, none otherwise; the sentence is the topic clause followed by the optional clauses |
| Weekly.SentenceOpens | preprocess_pdfs.py:130-140 | each sentence starts with the digits of the row's first cell, followed by "주차" |
| Weekly.ExtraEmpty | preprocess_pdfs.py:141-146 | a sentence has no optional clause exactly when the description, range and method cells are all empty |
| Weekly.ClausePresent | preprocess_pdfs.py:141-146 | an optional clause is present exactly when its cell is non-empty, and carries the cell's text |
| Weekly.SentencesCount | preprocess_pdfs.py:127-147 | one sentence per kept row: the sentence count is the number of kept rows |
| Weekly.WeeklyCount | preprocess_pdfs.py:124-148 | over all tables, one sentence per kept non-header row; the sentences of two table lists in sequence are concatenated in order |
| Weekly.ParseWeekly | preprocess_pdfs.py:124-148 | the loop returns the sentence list `WeeklyOf` of the inputs |
| Synthesis.CourseSentence | preprocess_pdfs.py:173-177 | the course sentence opens with its fixed words and carries the course name, and the professor clause with the professor when known |
| Synthesis.TermSentence | preprocess_pdfs.py:179-180 | the term sentence opens with its fixed words and carries the year and the term |
| Synthesis.AudienceSentence | preprocess_pdfs.py:182-183 | the audience sentence opens with its fixed words and carries the department |
| Synthesis.OverviewSentence | preprocess_pdfs.py:185-186 | the overview sentence opens with its fixed words and carries the overview |
| Synthesis.Prelude | preprocess_pdfs.py:173-186 | the basic-info sentences, in the order course, term, audience, overview: at most four |
| Synthesis.PreludeContents | preprocess_pdfs.py:173-186 | the course sentence appears exactly when the course name is known, and first, with the professor clause exactly when the professor is known; the term sentence exactly when both year and term are known; the audience and overview sentences exactly when their field is known; each is the sentence of its field values |
| Synthesis.Trunc | preprocess_pdfs.py:193 | `int()` on a real rounds toward zero |
| Synthesis.Layout | preprocess_pdfs.py:171-204 | the goal sentences, one per goal and in order, and then the weekly sentences unchanged, come right after the at most four basic-info sentences; after them there are at most five more |
| Synthesis.EvalSentence | preprocess_pdfs.py:193-195 | at most one evaluation sentence; EvalSentenceOmitted and EvalSentenceMentions state when it appears and what it lists |
| Synthesis.EvalSentenceOmitted | preprocess_pdfs.py:193-195 | the evaluation sentence is left out exactly when no item's ratio is truthy |
| Synthesis.CountedMember | preprocess_pdfs.py:193 | the items listed are exactly the dict keys whose ratio is present and non-zero |
| Synthesis.PartsAt | preprocess_pdfs.py:193 | part `i` is item `i` of the listed items, with its truncated percentage |
| Synthesis.EvalSentenceMentions | preprocess_pdfs.py:193-195 | every item whose ratio counts appears in the evaluation sentence as "item N%" |
| Synthesis.RatioPrinted | preprocess_pdfs.py:193 | the percentage printed is `int()` of the number in the ratio cell, and a zero ratio is omitted |
| Synthesis.AllSentences | preprocess_pdfs.py:171-204 | definition of the sentence list: basic-info, goal, weekly, evaluation and textbook sentences in that order; Layout states where each section sits |
| Synthesis.BuildSentences | preprocess_pdfs.py:171-204 | the step-by-step appends give the sentence list `AllSentences` of the inputs, section by section |
| Chunking.Chunks | preprocess_pdfs.py:153-157 | definition of the chunk list: the first `size` elements, then the chunks of the rest; ChunksFlatten, ChunksShape and ChunksCount state its properties |
| Chunking.ChunksFlatten | preprocess_pdfs.py:153-157 | concatenating the chunks gives back the input |
| Chunking.ChunksShape | preprocess_pdfs.py:155-156 | every chunk is non-empty with at most `size` elements, and all but the last have exactly `size` |
| Chunking.ChunksCount | preprocess_pdfs.py:155-156 | the number of chunks `m` satisfies `(m-1)*size < n <= m*size`, that is `ceil(n/size)`, and is zero exactly when `n` is zero |
| Chunking.ChunkBySentences | preprocess_pdfs.py:153-157 | the stepped slicing loop, with Python's clamped slice end, returns the chunks `Chunks` of the inputs |
| Pipeline.Payload | preprocess_pdfs.py:206-217 | one chunk record per sentence group; PayloadFacts states the ids, the source, the metadata and the texts |
| Pipeline.PayloadFacts | preprocess_pdfs.py:206-217 | the chunk ids are 1..m with `m = ceil(n/5)`; every chunk carries the PDF name and the basic-info dict; joining the chunk texts with newlines gives the sentences joined with newlines |
| Pipeline.PayloadJoin | preprocess_pdfs.py:209-217 | joining the non-empty groups and then joining their texts with the same separator joins all elements |
| Pipeline.ProcessSinglePdf | preprocess_pdfs.py:163-219 | the stages in sequence return the payload `PdfPayload` of the inputs |
| Strings.JoinGroups | preprocess_pdfs.py:214 | grouping a list and joining group texts loses and adds nothing |
| Strings.NatToStringRoundTrip | preprocess_pdfs.py:193 | reading the formatted digits back gives the number |
| Strings.IntToStringInjective | data_loader.py:26 | different integers format differently |
| Loader.DocId | data_loader.py:26 | definition of the document id: the `source_pdf` value or "unknown", "_chunk", then the `chunk_id` value or the 1-based position, each shown as Python formats it; IdsDistinct states when ids differ |
| Loader.Meta | data_loader.py:28-30 | definition of the document metadata: the record's metadata with `source_pdf` and `chunk_id` overlaid; DocumentFields states what it keeps |
| Loader.DocumentOf | data_loader.py:26-31 | definition of one loop iteration: a `KeyError` on "text" when the record has no text, otherwise the `Document` of its id, text and metadata |
| Loader.LoadShape | data_loader.py:24-31 | loading fails exactly when some record has no text, with a `KeyError` on "text"; otherwise there is one document per record, in order, each built from its record and position |
| Loader.DocumentFields | data_loader.py:26-31 | the text is copied; the metadata keeps every other key and sets `source_pdf` and `chunk_id` to the raw `get` result, `None` when absent; the id falls back to "unknown" and to the 1-based position |
| Loader.IdsDistinct | data_loader.py:26 | two records with the same source and different integer chunk ids get different ids |
| Loader.LoadPayload | data_loader.py:24-31 | the records of a payload numbered 1..m load without error into documents with distinct ids and the chunk texts |
| Loader.LoadPdfPayload | data_loader.py:24-31 | the payload one PDF produces loads into one document per chunk, with distinct ids |
| Loader.LoadDocuments | data_loader.py:24-31 | the loop returns the documents of `Load`, stopping at the first record without text |

## Left out

- PDF extraction (`preprocess_pdfs.py:46-48`) is reading a file through a third-party library. The model takes the tables of all pages, in page order, as its input.
- `process_all_pdfs` (`preprocess_pdfs.py:224-242`) is left out. It globs a directory, catches exceptions per file, prints, and writes JSON, which is all file I/O.
- The file existence check, the JSON read and the closing print of `load_documents` (`data_loader.py:18-22`, `33`) are file I/O and console output.
- Floating-point arithmetic is not modelled:
  - `float()` is an abstract parser on exact reals, so IEEE rounding is not modelled. For example, `int(float("29") / 100.0 * 100)` is 28 in Python, but 29 here.
  - `nan` and `inf`, for which `int()` raises, are not modelled either.
- Synthesis.RatioPrinted: is stated in exact real arithmetic, not in IEEE doubles, for the reason above.
- Evaluation.ParseEval: requires every non-header evaluation row to have three cells. The source indexes `row[1]` and `row[2]` outside its `try` and raises `IndexError` on a shorter row.
- Textbooks.ParseTexts: requires every textbook row to be non-empty. The source indexes `row[0]` unconditionally.
- Pipeline.ProcessSinglePdf: requires both shapes above for its buckets, for the same reason.
- Chunking.ChunkBySentences: requires a chunk size of at least 1. Python's `range` raises on a zero step, and the pipeline always passes 5.
- Normalize.Lower: models `.lower()` on ASCII letters only. Non-ASCII letters whose lower-case form is ASCII are not modelled: Python lowers U+212A KELVIN SIGN to `k`, so a header cell "\u212Aeyword" counts as the weekly keyword "keyword" in the source and not in the model. Korean text has no case.
- The insertion order of the basic-info dict and of a document's metadata is not modelled. Both are maps here. In the source that order is visible, as the key order of every chunk's `metadata` (`preprocess_pdfs.py:213`) and of each `Document`'s metadata (`data_loader.py:28-30`).
- Every chunk shares one `info` dict (`preprocess_pdfs.py:213`). The model treats it as a value, so aliasing between chunks is not captured.
- `Loader.Value` is only `null`, integers and strings. Other JSON values (floats, booleans, lists, objects) are not modelled.
- A `metadata` field that is not a dict is not modelled. `dict()` would raise on it.
- A stored record that is not a JSON object is not modelled: `item.get` raises `AttributeError` on it (`data_loader.py:26`). Nor is a file whose top level is an object rather than a list, where `enumerate` walks the keys (`data_loader.py:25`). The model's `Record` type excludes both.
- `utils.py`, `vector_store.py`, `rag_chain.py`, `main_rag.py` and `streamlit_app.py` are not part of this model. They are numeric vector search, calls to an external embedding and chat service, a console loop and a web UI.
