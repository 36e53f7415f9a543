/**
 * `parse_weekly` (preprocess_pdfs.py): one sentence per lesson row of the
 * weekly-plan tables. A row is kept when it has at least two cells and its
 * first cell holds a digit; the sentence opens with the digits of that cell
 * and adds a clause for each optional cell that is not empty.
 */
module Weekly {
  import opened Wrappers
  import opened Strings
  import opened Normalize
  import opened Tables

  /** The five cells `parse_weekly` reads from a row, normalised. */
  datatype WeekRow = WeekRow(week: string, keyword: string, desc: string, style: string, texts: string)

  /** `norm(row[i]) if len(row) > i else ""`. */
  function CellAt(row: Row, i: nat): string {
    if |row| > i then Norm(row[i]) else ""
  }

  function ReadRow(row: Row): WeekRow
    requires |row| >= 2
  {
    WeekRow(Norm(row[0]), Norm(row[1]), CellAt(row, 2), CellAt(row, 3), CellAt(row, 4))
  }

  /** An optional clause: present only when its cell is not empty. */
  function Clause(before: string, x: string, after: string): string {
    if x == "" then "" else before + x + after
  }

  /** The opening clause, which every sentence has. */
  function Intro(wn: string, keyword: string): string {
    wn + "주차 강의 주제는 " + keyword + "입니다."
  }

  /** The optional clauses, in the order description, textbook range, method. */
  function Extra(wr: WeekRow): string {
    Clause(" 주요 학습 내용은 ", wr.desc, "입니다.")
    + Clause(" 교재범위는 ", wr.texts, "입니다.")
    + Clause(" 수업은 ", wr.style, " 방식으로 진행됩니다.")
  }

  /** The sentence of a kept row whose week number is `wn`. */
  function SentenceText(wn: string, wr: WeekRow): string {
    Intro(wn, wr.keyword) + Extra(wr)
  }

  /** The sentence a row contributes: none when it is short or its first cell has no digit. */
  function RowSentence(row: Row): seq<string> {
    if |row| < 2 then []
    else
      var wr := ReadRow(row);
      var wn := KeepDigits(wr.week);
      if wn == [] then [] else [SentenceText(wn, wr)]
  }

  /** The sentences of a list of rows, in order. */
  function Sentences(rows: seq<Row>): seq<string> {
    if rows == [] then [] else Sentences(rows[..|rows| - 1]) + RowSentence(rows[|rows| - 1])
  }

  /** The sentence list `parse_weekly` returns. */
  function WeeklyOf(tables: seq<Table>): seq<string> {
    Sentences(DataRows(tables))
  }

  /** A row is kept when it has two cells and its raw first cell holds a digit. */
  predicate Kept(row: Row) {
    |row| >= 2 && HasDigit(row[0].GetOr(""))
  }

  /** The week number of a row: the digits of its raw first cell. */
  function WeekNumber(row: Row): string
    requires row != []
  {
    KeepDigits(row[0].GetOr(""))
  }

  /**
   * A row yields exactly one sentence when it is kept and none otherwise;
   * the sentence starts with the row's week number followed by "주차".
   * Normalising the first cell neither adds nor loses a digit, so the test
   * on the normalised cell is the test on the raw one.
   */
  lemma RowSentenceKept(row: Row)
    ensures |RowSentence(row)| == if Kept(row) then 1 else 0
    ensures Kept(row) ==> RowSentence(row)[0] == Intro(WeekNumber(row), Norm(row[1])) + Extra(ReadRow(row))
  {
    if |row| >= 2 {
      KeepDigitsOfNorm(row[0].GetOr(""));
      KeepDigitsShape(row[0].GetOr(""));
    }
  }

  /** Every sentence of a kept row opens with its week number, which is made of digits only, and then "주차". */
  lemma SentenceOpens(row: Row)
    requires Kept(row)
    ensures |RowSentence(row)| == 1
    ensures var s := RowSentence(row)[0]; var wn := WeekNumber(row);
      wn != [] && (forall i :: 0 <= i < |wn| ==> IsDigit(wn[i]))
      && |wn| + 2 <= |s| && s[..|wn|] == wn && s[|wn|..|wn| + 2] == "주차"
  {
    RowSentenceKept(row);
    KeepDigitsShape(row[0].GetOr(""));
    IntroOpens(WeekNumber(row), Norm(row[1]), Extra(ReadRow(row)));
  }

  lemma IntroOpens(wn: string, keyword: string, extra: string)
    ensures var s := Intro(wn, keyword) + extra;
      |wn| + 2 <= |s| && s[..|wn|] == wn && s[|wn|..|wn| + 2] == "주차"
  {
    var rest := "주차 강의 주제는 " + keyword + "입니다." + extra;
    assert Intro(wn, keyword) + extra == wn + rest;
    assert rest[..2] == "주차";
  }

  /** A sentence has no optional clause exactly when the description, range and teaching-method cells are all empty. */
  lemma ExtraEmpty(wr: WeekRow)
    ensures Extra(wr) == "" <==> wr.desc == "" && wr.texts == "" && wr.style == ""
  {
  }

  /** Each optional clause is present exactly when its cell is non-empty, and holds the cell's text. */
  lemma ClausePresent(before: string, x: string, after: string)
    requires before != []
    ensures Clause(before, x, after) != "" <==> x != ""
    ensures x != "" ==> Clause(before, x, after)[|before|..|before| + |x|] == x
  {
  }

  lemma {:induction false} SentencesAppend(a: seq<Row>, b: seq<Row>)
    ensures Sentences(a + b) == Sentences(a) + Sentences(b)
    decreases |b|
  {
    if b == [] {
      assert a + b == a;
    } else {
      assert (a + b)[..|a + b| - 1] == a + b[..|b| - 1];
      SentencesAppend(a, b[..|b| - 1]);
    }
  }

  /** The number of kept rows. */
  function CountKept(rows: seq<Row>): nat {
    if rows == [] then 0 else CountKept(rows[..|rows| - 1]) + (if Kept(rows[|rows| - 1]) then 1 else 0)
  }

  /** One sentence per kept row: the sentence count is the kept-row count. */
  lemma {:induction false} SentencesCount(rows: seq<Row>)
    ensures |Sentences(rows)| == CountKept(rows)
    decreases |rows|
  {
    if rows != [] {
      SentencesCount(rows[..|rows| - 1]);
      RowSentenceKept(rows[|rows| - 1]);
    }
  }

  /** The weekly sentences of all tables: one per kept non-header row, in table order. */
  lemma WeeklyCount(tables: seq<Table>)
    ensures |WeeklyOf(tables)| == CountKept(DataRows(tables))
    ensures forall a, b :: tables == a + b ==> WeeklyOf(tables) == WeeklyOf(a) + WeeklyOf(b)
  {
    SentencesCount(DataRows(tables));
    forall a, b | tables == a + b ensures WeeklyOf(tables) == WeeklyOf(a) + WeeklyOf(b) {
      DataRowsAppend(a, b);
      SentencesAppend(DataRows(a), DataRows(b));
    }
  }

  lemma SentencesStep(rows: seq<Row>, k: nat)
    requires k < |rows|
    ensures Sentences(rows[..k + 1]) == Sentences(rows[..k]) + RowSentence(rows[k])
  {
    assert rows[..k + 1][..k] == rows[..k];
  }

  /** The loop over `t[1:]` of one table. */
  method AppendSentences(sents0: seq<string>, rows: seq<Row>) returns (sents: seq<string>)
    ensures sents == sents0 + Sentences(rows)
  {
    sents := sents0;
    for k := 0 to |rows|
      invariant sents == sents0 + Sentences(rows[..k])
    {
      SentencesStep(rows, k);
      var row := rows[k];
      if |row| < 2 {
        continue;
      }
      var week := Norm(row[0]);
      var wn := KeepDigits(week);
      if wn == [] {
        continue;
      }
      var keyword := Norm(row[1]);
      var desc := if |row| > 2 then Norm(row[2]) else "";
      var style := if |row| > 3 then Norm(row[3]) else "";
      var texts := if |row| > 4 then Norm(row[4]) else "";
      var sent := SentenceText(wn, WeekRow(week, keyword, desc, style, texts));
      sents := sents + [sent];
    }
    assert rows[..|rows|] == rows;
  }

  /** `parse_weekly`. */
  method ParseWeekly(tables: seq<Table>) returns (sents: seq<string>)
    ensures sents == WeeklyOf(tables)
  {
    sents := [];
    for ti := 0 to |tables|
      invariant sents == Sentences(DataRows(tables[..ti]))
    {
      DataRowsStep(tables, ti);
      SentencesAppend(DataRows(tables[..ti]), Body(tables[ti]));
      sents := AppendSentences(sents, Body(tables[ti]));
    }
    assert tables[..|tables|] == tables;
  }
}
