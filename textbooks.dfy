/**
 * `parse_texts` (preprocess_pdfs.py): the four textbook-related slots of a
 * course. Every row of every table (the header row included) is read as a
 * key cell and a value cell; the key picks at most one slot, in a fixed
 * priority order. The two textbook slots accumulate their values line by
 * line; the other two keep the last value.
 */
module Textbooks {
  import opened Wrappers
  import opened Strings
  import opened Normalize
  import opened Tables

  /** The record `parse_texts` returns: exactly four slots, each `None` until a row fills it. */
  datatype TextbookInfo = TextbookInfo(main: Option<string>, reference: Option<string>,
                                       preparation: Option<string>, notice: Option<string>)
  {
    /** `res[key]` for the slot's key. */
    function Get(s: Slot): Option<string> {
      match s
      case MainText => main
      case Reference => reference
      case Preparation => preparation
      case Notice => notice
    }
  }

  /** The four slots, in the order their keywords are tried. */
  datatype Slot = MainText | Reference | Preparation | Notice

  const NoTexts := TextbookInfo(None, None, None, None)

  /** The keyword a key has to contain for each slot. */
  function Keyword(s: Slot): string {
    match s
    case MainText => "주교재"
    case Reference => "참고교재"
    case Preparation => "학습준비사항"
    case Notice => "수강학생 유의"
  }

  /** The slot a key selects: the first slot, in priority order, whose keyword the key contains. */
  function SlotOf(k: string): Option<Slot> {
    if Contains(k, "주교재") then Some(MainText)
    else if Contains(k, "참고교재") then Some(Reference)
    else if Contains(k, "학습준비사항") then Some(Preparation)
    else if Contains(k, "수강학생 유의") then Some(Notice)
    else None
  }

  /**
   * A key selects slot `s` exactly when it contains the keyword of `s` and
   * none of the keywords tried before it; it selects none exactly when it
   * contains none of the four.
   */
  lemma SlotOfPriority(k: string)
    ensures SlotOf(k) == Some(MainText) <==> Contains(k, Keyword(MainText))
    ensures SlotOf(k) == Some(Reference) <==> !Contains(k, Keyword(MainText)) && Contains(k, Keyword(Reference))
    ensures SlotOf(k) == Some(Preparation) <==>
      !Contains(k, Keyword(MainText)) && !Contains(k, Keyword(Reference)) && Contains(k, Keyword(Preparation))
    ensures SlotOf(k) == Some(Notice) <==>
      !Contains(k, Keyword(MainText)) && !Contains(k, Keyword(Reference)) && !Contains(k, Keyword(Preparation))
      && Contains(k, Keyword(Notice))
    ensures SlotOf(k).None? <==> forall s :: !Contains(k, Keyword(s))
  {
    if SlotOf(k).None? {
      forall s ensures !Contains(k, Keyword(s)) {
      }
    }
  }

  /** A row as the parser reads it: the key and the value. */
  datatype TextRow = TextRow(key: string, value: string)

  /** `k = norm(row[0] or "").replace("\n", "")`, `v = norm(row[1]) if len(row) > 1 else ""`. */
  function ReadRow(row: Row): TextRow
    requires row != []
  {
    TextRow(Without(Norm(row[0]), '\n'), if |row| > 1 then Norm(row[1]) else "")
  }

  /** `(res[s] + "\n" if res[s] else "") + v`. */
  function Accumulate(cur: Option<string>, v: string): string {
    (if cur.Some? && cur.value != "" then cur.value + "\n" else "") + v
  }

  /** What one row does to the record. */
  function Step(res: TextbookInfo, tr: TextRow): TextbookInfo {
    match SlotOf(tr.key)
    case Some(MainText) => res.(main := Some(Accumulate(res.main, tr.value)))
    case Some(Reference) => res.(reference := Some(Accumulate(res.reference, tr.value)))
    case Some(Preparation) => res.(preparation := Some(tr.value))
    case Some(Notice) => res.(notice := Some(tr.value))
    case None => res
  }

  /** The record after reading rows one after the other, starting from all slots `None`. */
  function StoreRows(trs: seq<TextRow>): TextbookInfo {
    if trs == [] then NoTexts else Step(StoreRows(trs[..|trs| - 1]), trs[|trs| - 1])
  }

  /** Every row has a first cell. */
  predicate NoEmptyRow(tables: seq<Table>) {
    forall ti, r :: 0 <= ti < |tables| && 0 <= r < |tables[ti]| ==> tables[ti][r] != []
  }

  /** Every row has a first cell. */
  predicate Filled(rows: seq<Row>) {
    forall i :: 0 <= i < |rows| ==> rows[i] != []
  }

  /** Rows as the parser reads them. */
  function ReadRows(rows: seq<Row>): (r: seq<TextRow>)
    requires Filled(rows)
    ensures |r| == |rows|
  {
    if rows == [] then [] else ReadRows(rows[..|rows| - 1]) + [ReadRow(rows[|rows| - 1])]
  }

  /** `for t in tables for row in t`: every row, header rows included. */
  function AllRows(tables: seq<Table>): seq<Row> {
    Flatten(tables)
  }

  lemma {:induction false} AllRowsMember(tables: seq<Table>, i: nat)
    requires i < |AllRows(tables)|
    ensures exists ti, r :: 0 <= ti < |tables| && 0 <= r < |tables[ti]| && tables[ti][r] == AllRows(tables)[i]
    decreases |tables|
  {
    var t := tables[0];
    if i < |t| {
      assert tables[0][i] == AllRows(tables)[i];
    } else {
      AllRowsMember(tables[1..], i - |t|);
      var ti, r :| 0 <= ti < |tables[1..]| && 0 <= r < |tables[1..][ti]| && tables[1..][ti][r] == AllRows(tables[1..])[i - |t|];
      assert tables[ti + 1][r] == AllRows(tables)[i];
    }
  }

  lemma AllRowsNonEmpty(tables: seq<Table>)
    requires NoEmptyRow(tables)
    ensures Filled(AllRows(tables))
  {
    forall i | 0 <= i < |AllRows(tables)| ensures AllRows(tables)[i] != [] {
      AllRowsMember(tables, i);
    }
  }

  /** The rows of all text tables, as the parser reads them. */
  function TextRows(tables: seq<Table>): seq<TextRow>
    requires NoEmptyRow(tables)
  {
    AllRowsNonEmpty(tables);
    ReadRows(AllRows(tables))
  }

  /** The record `parse_texts` returns. */
  function TextsOf(tables: seq<Table>): TextbookInfo
    requires NoEmptyRow(tables)
  {
    StoreRows(TextRows(tables))
  }

  // ---------------------------------------------------------------------------
  // The value of each slot, stated without the loop
  // ---------------------------------------------------------------------------

  /** The values of the rows whose key selects slot `s`, in order. */
  function Values(trs: seq<TextRow>, s: Slot): seq<string> {
    if trs == [] then []
    else if SlotOf(trs[|trs| - 1].key) == Some(s) then Values(trs[..|trs| - 1], s) + [trs[|trs| - 1].value]
    else Values(trs[..|trs| - 1], s)
  }

  /** `vs` without its leading empty strings. */
  function DropLeadingEmpty(vs: seq<string>): (r: seq<string>)
    ensures r == [] || r[0] != ""
  {
    if vs == [] then [] else if vs[0] == "" then DropLeadingEmpty(vs[1..]) else vs
  }

  /**
   * An accumulating slot: `None` when no row selected it, otherwise the
   * values joined by line breaks, once the empty values before the first
   * non-empty one are dropped (an empty current value adds no line break).
   */
  function Lines(vs: seq<string>): Option<string> {
    if vs == [] then None else Some(Join(DropLeadingEmpty(vs), "\n"))
  }

  /** An overwritten slot: `None` when no row selected it, otherwise the last value. */
  function LastValue(vs: seq<string>): Option<string> {
    if vs == [] then None else Some(vs[|vs| - 1])
  }

  lemma {:induction false} DropLeadingEmptySnoc(vs: seq<string>, v: string)
    ensures DropLeadingEmpty(vs + [v]) ==
      if DropLeadingEmpty(vs) == [] then DropLeadingEmpty([v]) else DropLeadingEmpty(vs) + [v]
  {
    if vs != [] {
      assert (vs + [v])[1..] == vs[1..] + [v];
      if vs[0] == "" {
        DropLeadingEmptySnoc(vs[1..], v);
      }
    }
  }

  lemma JoinHeadNonEmpty(parts: seq<string>, sep: string)
    requires parts != [] && parts[0] != ""
    ensures Join(parts, sep) != ""
  {
  }

  lemma JoinOne(v: string)
    ensures Join(DropLeadingEmpty([v]), "\n") == v
  {
    assert [v][1..] == [];
    if v == "" {
      assert DropLeadingEmpty([v]) == [];
    } else {
      assert DropLeadingEmpty([v]) == [v];
    }
  }

  /** One more value for an accumulating slot extends its lines as `Accumulate` does. */
  lemma LinesSnoc(vs: seq<string>, v: string)
    ensures Lines(vs + [v]) == Some(Accumulate(Lines(vs), v))
  {
    DropLeadingEmptySnoc(vs, v);
    var d := DropLeadingEmpty(vs);
    if vs == [] {
      assert vs + [v] == [v];
      JoinOne(v);
      assert Accumulate(None, v) == v;
    } else if d == [] {
      JoinOne(v);
      assert Accumulate(Some(""), v) == v;
    } else {
      JoinHeadNonEmpty(d, "\n");
      JoinAppend(d, [v], "\n");
    }
  }

  /**
   * The slots of the record, each stated on the values meant for it: the
   * two textbook slots hold their values' lines, the other two the last value.
   */
  lemma {:induction false} SlotValues(trs: seq<TextRow>)
    ensures StoreRows(trs).main == Lines(Values(trs, MainText))
    ensures StoreRows(trs).reference == Lines(Values(trs, Reference))
    ensures StoreRows(trs).preparation == LastValue(Values(trs, Preparation))
    ensures StoreRows(trs).notice == LastValue(Values(trs, Notice))
    decreases |trs|
  {
    if trs != [] {
      var init := trs[..|trs| - 1];
      var tr := trs[|trs| - 1];
      SlotValues(init);
      var before := StoreRows(init);
      assert StoreRows(trs) == Step(before, tr);
      match SlotOf(tr.key)
      case Some(MainText) =>
        LinesSnoc(Values(init, MainText), tr.value);
      case Some(Reference) =>
        LinesSnoc(Values(init, Reference), tr.value);
      case Some(Preparation) =>
      case Some(Notice) =>
      case None =>
    }
  }

  /** When no key contains any of the four keywords, all four slots stay `None`. */
  lemma {:induction false} NoMatchNoTexts(trs: seq<TextRow>)
    requires forall i :: 0 <= i < |trs| ==> SlotOf(trs[i].key).None?
    ensures StoreRows(trs) == NoTexts
    decreases |trs|
  {
    if trs != [] {
      NoMatchNoTexts(trs[..|trs| - 1]);
    }
  }

  /** A slot is `None` exactly when no key selected it. */
  lemma SlotSet(trs: seq<TextRow>, s: Slot)
    ensures StoreRows(trs).Get(s).None? <==> Values(trs, s) == []
  {
    SlotValues(trs);
  }

  // ---------------------------------------------------------------------------
  // The loops
  // ---------------------------------------------------------------------------

  lemma ReadRowsStep(rows: seq<Row>, k: nat)
    requires k < |rows| && Filled(rows)
    ensures ReadRows(rows[..k + 1]) == ReadRows(rows[..k]) + [ReadRow(rows[k])]
  {
    assert rows[..k + 1][..k] == rows[..k];
  }

  lemma StoreRowsSnoc(trs: seq<TextRow>, tr: TextRow)
    ensures StoreRows(trs + [tr]) == Step(StoreRows(trs), tr)
  {
    assert (trs + [tr])[..|trs|] == trs;
  }

  lemma {:induction false} ReadRowsAppend(a: seq<Row>, b: seq<Row>)
    requires Filled(a) && Filled(b)
    ensures Filled(a + b)
    ensures ReadRows(a + b) == ReadRows(a) + ReadRows(b)
    decreases |b|
  {
    if b == [] {
      assert a + b == a;
    } else {
      assert (a + b)[..|a + b| - 1] == a + b[..|b| - 1];
      ReadRowsAppend(a, b[..|b| - 1]);
    }
  }

  lemma AllRowsStep(tables: seq<Table>, ti: nat)
    requires ti < |tables|
    ensures AllRows(tables[..ti + 1]) == AllRows(tables[..ti]) + tables[ti]
  {
    assert tables[..ti + 1] == tables[..ti] + [tables[ti]];
    FlattenAppend(tables[..ti], [tables[ti]]);
    assert Flatten([tables[ti]]) == tables[ti] + Flatten([tables[ti]][1..]);
  }

  /** The `if/elif` chain of `parse_texts` for one row. */
  method StoreRow(res0: TextbookInfo, key: string, v: string) returns (res: TextbookInfo)
    ensures res == Step(res0, TextRow(key, v))
  {
    res := res0;
    if Contains(key, "주교재") {
      res := res.(main := Some((if res.main.Some? && res.main.value != "" then res.main.value + "\n" else "") + v));
    } else if Contains(key, "참고교재") {
      res := res.(reference := Some((if res.reference.Some? && res.reference.value != "" then res.reference.value + "\n" else "") + v));
    } else if Contains(key, "학습준비사항") {
      res := res.(preparation := Some(v));
    } else if Contains(key, "수강학생 유의") {
      res := res.(notice := Some(v));
    }
  }

  lemma TableStep(done: seq<TextRow>, t: Table, k: nat)
    requires k < |t| && Filled(t)
    ensures StoreRows(done + ReadRows(t[..k + 1])) == Step(StoreRows(done + ReadRows(t[..k])), ReadRow(t[k]))
  {
    ReadRowsStep(t, k);
    StoreRowsSnoc(done + ReadRows(t[..k]), ReadRow(t[k]));
    assert done + ReadRows(t[..k + 1]) == (done + ReadRows(t[..k])) + [ReadRow(t[k])];
  }

  /** The loop over the rows of one table. */
  method StoreTable(res0: TextbookInfo, ghost done: seq<TextRow>, t: Table) returns (res: TextbookInfo)
    requires res0 == StoreRows(done)
    requires Filled(t)
    ensures res == StoreRows(done + ReadRows(t))
  {
    res := res0;
    assert done + ReadRows(t[..0]) == done;
    for k := 0 to |t|
      invariant res == StoreRows(done + ReadRows(t[..k]))
    {
      var row := t[k];
      var key := Without(Norm(row[0]), '\n');
      var v := if |row| > 1 then Norm(row[1]) else "";
      TableStep(done, t, k);
      res := StoreRow(res, key, v);
    }
    assert t[..|t|] == t;
  }

  /** `parse_texts`. */
  method ParseTexts(tables: seq<Table>) returns (res: TextbookInfo)
    requires NoEmptyRow(tables)
    ensures res == TextsOf(tables)
  {
    res := NoTexts;
    for ti := 0 to |tables|
      invariant NoEmptyRow(tables[..ti])
      invariant Filled(AllRows(tables[..ti]))
      invariant res == StoreRows(ReadRows(AllRows(tables[..ti])))
    {
      AllRowsStep(tables, ti);
      assert NoEmptyRow(tables[..ti + 1]);
      ReadRowsAppend(AllRows(tables[..ti]), tables[ti]);
      res := StoreTable(res, ReadRows(AllRows(tables[..ti])), tables[ti]);
    }
    assert tables[..|tables|] == tables;
  }
}
