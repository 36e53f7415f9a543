/**
 * `parse_eval` (preprocess_pdfs.py): the evaluation items of every
 * non-header row, each with its maximum score and its ratio, in a dict that
 * keeps the order in which items were first inserted and the last row's
 * values for a repeated item.
 */
module Evaluation {
  import opened Wrappers
  import opened Normalize
  import opened Tables

  /** `{"max_score": …, "ratio": …}`; `None` where `float()` raised. */
  datatype Entry = Entry(maxScore: Option<real>, ratio: Option<real>)

  /**
   * A Python dict from item name to entry: its keys in insertion order and
   * the value of each key.
   */
  datatype EvalDict = EvalDict(keys: seq<string>, entries: map<string, Entry>)

  /** The keys are distinct and are exactly the keys that have a value. */
  ghost predicate Valid(d: EvalDict) {
    (forall i, j :: 0 <= i < j < |d.keys| ==> d.keys[i] != d.keys[j])
    && (forall k :: k in d.entries <==> k in d.keys)
  }

  /** `d[k] = e`: a new key goes to the end; an existing key keeps its place and gets the new value. */
  function Put(d: EvalDict, k: string, e: Entry): EvalDict {
    EvalDict(if k in d.entries then d.keys else d.keys + [k], d.entries[k := e])
  }

  lemma PutValid(d: EvalDict, k: string, e: Entry)
    requires Valid(d)
    ensures Valid(Put(d, k, e))
  {
  }

  /**
   * `float(s)`, as a partial parser: `None` where `float` raises. The
   * parser is a parameter of the model, so nothing here depends on how
   * decimal text is turned into a number.
   */
  type FloatParser = string -> Option<real>

  /** `float(s) / 100.0`, `None` where `float` raises. */
  function Percent(x: Option<real>): (r: Option<real>)
    ensures r.None? <==> x.None?
    ensures x.Some? ==> r.value * 100.0 == x.value
  {
    match x
    case Some(v) => Some(v / 100.0)
    case None => None
  }

  /** The three cells `parse_eval` reads from a row, normalised. */
  datatype EvalRow = EvalRow(item: string, maxScore: string, ratio: string)

  /** `item = norm(row[0])`, `max_s = norm(row[1])`, `ratio = norm(row[2])`. */
  function ReadRow(row: Row): EvalRow
    requires |row| >= 3
  {
    EvalRow(Norm(row[0]), Norm(row[1]), Norm(row[2]))
  }

  /** Every row has the three cells the parser reads. */
  predicate Wide(rows: seq<Row>) {
    forall i :: 0 <= i < |rows| ==> |rows[i]| >= 3
  }

  /** The rows as the parser reads them. */
  function ReadRows(rows: seq<Row>): (r: seq<EvalRow>)
    requires Wide(rows)
    ensures |r| == |rows|
  {
    if rows == [] then [] else ReadRows(rows[..|rows| - 1]) + [ReadRow(rows[|rows| - 1])]
  }

  /** The entry of one row: its two numbers, parsed; the ratio divided by 100. */
  function RowEntry(er: EvalRow, parse: FloatParser): Entry {
    Entry(parse(er.maxScore), Percent(parse(er.ratio)))
  }

  /** `if item: d[item] = …`: a row stores its entry under its item name, unless that is empty. */
  function StoreRow(d: EvalDict, er: EvalRow, parse: FloatParser): EvalDict {
    if er.item != "" then Put(d, er.item, RowEntry(er, parse)) else d
  }

  /** Storing rows one after the other. */
  function StoreRows(d: EvalDict, ers: seq<EvalRow>, parse: FloatParser): EvalDict {
    if ers == [] then d else StoreRow(StoreRows(d, ers[..|ers| - 1], parse), ers[|ers| - 1], parse)
  }

  /** Every non-header row of every table has at least three cells. */
  predicate EvalShaped(tables: seq<Table>) {
    forall ti, r :: 0 <= ti < |tables| && 1 <= r < |tables[ti]| ==> |tables[ti][r]| >= 3
  }

  lemma DataRowsWide(tables: seq<Table>)
    requires EvalShaped(tables)
    ensures Wide(DataRows(tables))
  {
    var rows := DataRows(tables);
    forall i | 0 <= i < |rows| ensures |rows[i]| >= 3 {
      DataRowsMember(tables, rows[i]);
    }
  }

  /** The non-header rows of all evaluation tables, as the parser reads them. */
  function EvalRows(tables: seq<Table>): seq<EvalRow>
    requires EvalShaped(tables)
  {
    DataRowsWide(tables);
    ReadRows(DataRows(tables))
  }

  /** The dict `parse_eval` returns. */
  function EvalOf(tables: seq<Table>, parse: FloatParser): EvalDict
    requires EvalShaped(tables)
  {
    StoreRows(EvalDict([], map[]), EvalRows(tables), parse)
  }

  lemma {:induction false} StoreRowsValid(d: EvalDict, ers: seq<EvalRow>, parse: FloatParser)
    requires Valid(d)
    ensures Valid(StoreRows(d, ers, parse))
    decreases |ers|
  {
    if ers != [] {
      StoreRowsValid(d, ers[..|ers| - 1], parse);
    }
  }

  /** The item names in the order the rows give them, empty names left out. */
  function Items(ers: seq<EvalRow>): seq<string> {
    if ers == [] then []
    else Items(ers[..|ers| - 1]) + (if ers[|ers| - 1].item != "" then [ers[|ers| - 1].item] else [])
  }

  /** The distinct elements of `s` in the order of their first occurrence. */
  function Dedup(s: seq<string>): seq<string> {
    if s == [] then [] else
      var d := Dedup(s[..|s| - 1]);
      if s[|s| - 1] in d then d else d + [s[|s| - 1]]
  }

  lemma {:induction false} DedupMember(s: seq<string>, x: string)
    ensures x in Dedup(s) <==> x in s
    decreases |s|
  {
    if s != [] {
      DedupMember(s[..|s| - 1], x);
      assert s == s[..|s| - 1] + [s[|s| - 1]];
    }
  }

  /**
   * The keys of the dict are the item names in the order of their first
   * occurrence: a later row with a known name moves nothing.
   */
  lemma {:induction false} KeysInFirstOrder(ers: seq<EvalRow>, parse: FloatParser)
    ensures StoreRows(EvalDict([], map[]), ers, parse).keys == Dedup(Items(ers))
    ensures Valid(StoreRows(EvalDict([], map[]), ers, parse))
    decreases |ers|
  {
    if ers != [] {
      var init := ers[..|ers| - 1];
      var er := ers[|ers| - 1];
      KeysInFirstOrder(init, parse);
      var d := StoreRows(EvalDict([], map[]), init, parse);
      assert StoreRows(EvalDict([], map[]), ers, parse) == StoreRow(d, er, parse);
      PutValid(d, er.item, RowEntry(er, parse));
      if er.item != "" {
        var items := Items(init);
        assert Items(ers) == items + [er.item];
        assert (items + [er.item])[..|items|] == items;
        DedupMember(items, er.item);
        assert er.item in d.entries <==> er.item in Dedup(items);
      } else {
        assert Items(ers) == Items(init);
      }
    }
  }

  /** Row `j` names item `k`, and no later row does. */
  ghost predicate LastRowFor(ers: seq<EvalRow>, k: string, j: int) {
    0 <= j < |ers| && ers[j].item == k
    && forall j' :: j < j' < |ers| ==> ers[j'].item != k
  }

  /**
   * Last row wins: item `k` is present exactly when it is non-empty and
   * names a row, and its entry is that of the last such row; an item whose
   * numbers do not parse is still stored, with `None`.
   */
  lemma StoreRowsLookup(ers: seq<EvalRow>, parse: FloatParser, k: string)
    ensures k in StoreRows(EvalDict([], map[]), ers, parse).entries <==>
      k != "" && exists j :: 0 <= j < |ers| && ers[j].item == k
    ensures forall j :: LastRowFor(ers, k, j) && k != "" ==>
      StoreRows(EvalDict([], map[]), ers, parse).entries[k] == RowEntry(ers[j], parse)
  {
    StoreRowsHas(ers, parse, k);
    forall j | LastRowFor(ers, k, j) && k != ""
      ensures StoreRows(EvalDict([], map[]), ers, parse).entries[k] == RowEntry(ers[j], parse)
    {
      StoreRowsLast(ers, parse, k, j);
    }
  }

  lemma {:induction false} StoreRowsHas(ers: seq<EvalRow>, parse: FloatParser, k: string)
    ensures k in StoreRows(EvalDict([], map[]), ers, parse).entries <==>
      k != "" && exists j :: 0 <= j < |ers| && ers[j].item == k
    decreases |ers|
  {
    if ers != [] {
      var init := ers[..|ers| - 1];
      var er := ers[|ers| - 1];
      StoreRowsHas(init, parse, k);
      assert (exists j :: 0 <= j < |ers| && ers[j].item == k) <==>
             (exists j :: 0 <= j < |init| && init[j].item == k) || er.item == k by {
        if exists j :: 0 <= j < |init| && init[j].item == k {
          var j :| 0 <= j < |init| && init[j].item == k;
          assert ers[j].item == k;
        }
        if exists j :: 0 <= j < |ers| && ers[j].item == k {
          var j :| 0 <= j < |ers| && ers[j].item == k;
          if j < |init| {
            assert init[j].item == k;
          }
        }
      }
    }
  }

  lemma {:induction false} StoreRowsLast(ers: seq<EvalRow>, parse: FloatParser, k: string, j: int)
    requires LastRowFor(ers, k, j) && k != ""
    ensures k in StoreRows(EvalDict([], map[]), ers, parse).entries
    ensures StoreRows(EvalDict([], map[]), ers, parse).entries[k] == RowEntry(ers[j], parse)
    decreases |ers|
  {
    var init := ers[..|ers| - 1];
    if j < |init| {
      assert LastRowFor(init, k, j);
      StoreRowsLast(init, parse, k, j);
    }
  }

  /** Which items are stored, and in which order, does not depend on how (or whether) their numbers parse. */
  lemma KeysIgnoreParser(ers: seq<EvalRow>, p: FloatParser, q: FloatParser)
    ensures StoreRows(EvalDict([], map[]), ers, p).keys == StoreRows(EvalDict([], map[]), ers, q).keys
  {
    KeysInFirstOrder(ers, p);
    KeysInFirstOrder(ers, q);
  }

  /** The dict of the whole parse: valid, keyed by non-empty item names in first-seen order, last row winning. */
  lemma EvalFacts(tables: seq<Table>, parse: FloatParser, k: string)
    requires EvalShaped(tables)
    ensures Valid(EvalOf(tables, parse))
    ensures "" !in EvalOf(tables, parse).entries
    ensures EvalOf(tables, parse).keys == Dedup(Items(EvalRows(tables)))
    ensures forall j :: LastRowFor(EvalRows(tables), k, j) && k != "" ==>
      k in EvalOf(tables, parse).entries && EvalOf(tables, parse).entries[k] == RowEntry(EvalRows(tables)[j], parse)
  {
    KeysInFirstOrder(EvalRows(tables), parse);
    StoreRowsLookup(EvalRows(tables), parse, k);
    StoreRowsLookup(EvalRows(tables), parse, "");
  }

  lemma ReadRowsStep(rows: seq<Row>, k: nat)
    requires Wide(rows) && k < |rows|
    ensures Wide(rows[..k]) && Wide(rows[..k + 1])
    ensures ReadRows(rows[..k + 1]) == ReadRows(rows[..k]) + [ReadRow(rows[k])]
  {
    assert rows[..k + 1][..k] == rows[..k];
  }

  lemma {:induction false} ReadRowsAppend(a: seq<Row>, b: seq<Row>)
    requires Wide(a) && Wide(b)
    ensures Wide(a + b)
    ensures ReadRows(a + b) == ReadRows(a) + ReadRows(b)
    decreases |b|
  {
    if b == [] {
      assert a + b == a;
    } else {
      assert (a + b)[..|a + b| - 1] == a + b[..|b| - 1];
      ReadRowsAppend(a, b[..|b| - 1]);
    }
  }

  lemma StoreRowsSnoc(d: EvalDict, ers: seq<EvalRow>, er: EvalRow, parse: FloatParser)
    ensures StoreRows(d, ers + [er], parse) == StoreRow(StoreRows(d, ers, parse), er, parse)
  {
    assert (ers + [er])[..|ers|] == ers;
  }

  lemma {:induction false} StoreRowsAppend(d: EvalDict, a: seq<EvalRow>, b: seq<EvalRow>, parse: FloatParser)
    ensures StoreRows(d, a + b, parse) == StoreRows(StoreRows(d, a, parse), b, parse)
    decreases |b|
  {
    if b == [] {
      assert a + b == a;
    } else {
      assert (a + b)[..|a + b| - 1] == a + b[..|b| - 1];
      StoreRowsAppend(d, a, b[..|b| - 1], parse);
    }
  }

  /** The body of the row loop: read one row and store its entry under a non-empty item. */
  method StoreEvalRow(d0: EvalDict, row: Row, parse: FloatParser) returns (d: EvalDict)
    requires |row| >= 3
    ensures d == StoreRow(d0, ReadRow(row), parse)
  {
    d := d0;
    var item := Norm(row[0]);
    var maxText := Norm(row[1]);
    var ratioText := Norm(row[2]);
    var maxScore := parse(maxText);
    var ratio: Option<real> := None;
    var parsed := parse(ratioText);
    if parsed.Some? {
      ratio := Some(parsed.value / 100.0);
    }
    if item != "" {
      d := Put(d, item, Entry(maxScore, ratio));
    }
  }

  /** The loop over `t[1:]` of one table. */
  method StoreTable(d0: EvalDict, rows: seq<Row>, parse: FloatParser) returns (d: EvalDict)
    requires Wide(rows)
    ensures d == StoreRows(d0, ReadRows(rows), parse)
  {
    d := d0;
    for k := 0 to |rows|
      invariant Wide(rows[..k]) && d == StoreRows(d0, ReadRows(rows[..k]), parse)
    {
      ReadRowsStep(rows, k);
      StoreRowsSnoc(d0, ReadRows(rows[..k]), ReadRow(rows[k]), parse);
      d := StoreEvalRow(d, rows[k], parse);
    }
    assert rows[..|rows|] == rows;
  }

  /** `parse_eval`. */
  method ParseEval(tables: seq<Table>, parse: FloatParser) returns (d: EvalDict)
    requires EvalShaped(tables)
    ensures d == EvalOf(tables, parse)
  {
    d := EvalDict([], map[]);
    for ti := 0 to |tables|
      invariant EvalShaped(tables[..ti]) && Wide(DataRows(tables[..ti]))
      invariant d == StoreRows(EvalDict([], map[]), ReadRows(DataRows(tables[..ti])), parse)
    {
      DataRowsStep(tables, ti);
      var rows := Body(tables[ti]);
      assert EvalShaped(tables[..ti + 1]);
      DataRowsWide(tables[..ti + 1]);
      ReadRowsAppend(DataRows(tables[..ti]), rows);
      StoreRowsAppend(EvalDict([], map[]), ReadRows(DataRows(tables[..ti])), ReadRows(rows), parse);
      d := StoreTable(d, rows, parse);
    }
    assert tables[..|tables|] == tables;
  }
}
