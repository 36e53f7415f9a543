/**
 * Raw tables as the PDF library hands them over (rows of optional text
 * cells), the five keyword signatures, and the priority dispatch that puts
 * every table into at most one bucket (preprocess_pdfs.py, `is_weekly` …
 * `is_basic` and the loop body of `collect_tables`).
 */
module Tables {
  import opened Wrappers
  import opened Strings
  import opened Normalize

  /** A cell is `None` when the PDF library found no text for it. */
  type Cell = Option<string>
  type Row = seq<Cell>
  /** Row 0 is, by convention, the header row. */
  type Table = seq<Row>

  /** Python truthiness of a cell: neither `None` nor the empty string. */
  predicate Truthy(c: Cell) {
    c.Some? && c.value != ""
  }

  /** `[norm(c) for c in row if c]`: the normalised text of the truthy cells, in order. */
  function KeptCells(row: Row): (r: seq<string>)
    ensures |r| <= |row|
  {
    if row == [] then []
    else KeptCells(row[..|row| - 1]) + (if Truthy(row[|row| - 1]) then [Norm(row[|row| - 1])] else [])
  }

  /** Filtering a row is done cell by cell: the kept cells of `a + b` are those of `a`, then those of `b`. */
  lemma {:induction false} KeptCellsAppend(a: Row, b: Row)
    ensures KeptCells(a + b) == KeptCells(a) + KeptCells(b)
    decreases |b|
  {
    if b == [] {
      assert a + b == a;
    } else {
      var b' := b[..|b| - 1];
      assert (a + b)[..|a + b| - 1] == a + b';
      KeptCellsAppend(a, b');
    }
  }

  /** A single cell survives, normalised, exactly when it is truthy. */
  lemma KeptCellsOne(c: Cell)
    ensures KeptCells([c]) == if Truthy(c) then [Norm(c)] else []
  {
    assert [c][..0] == [];
  }

  /** Every truthy cell of a row is among its kept cells. */
  lemma {:induction false} KeptCellsHas(row: Row, j: nat)
    requires j < |row| && Truthy(row[j])
    ensures Norm(row[j]) in KeptCells(row)
    decreases |row|
  {
    if j < |row| - 1 {
      KeptCellsHas(row[..|row| - 1], j);
    }
  }

  /**
   * A string is a kept cell exactly when it is the normalised text of some
   * truthy cell of the row: falsy cells leave nothing behind.
   */
  lemma {:induction false} KeptCellsMember(row: Row, s: string)
    ensures s in KeptCells(row) <==> exists j :: 0 <= j < |row| && Truthy(row[j]) && Norm(row[j]) == s
    decreases |row|
  {
    if row != [] {
      var init := row[..|row| - 1];
      KeptCellsMember(init, s);
      if exists j :: 0 <= j < |row| && Truthy(row[j]) && Norm(row[j]) == s {
        var j :| 0 <= j < |row| && Truthy(row[j]) && Norm(row[j]) == s;
        KeptCellsHas(row, j);
      }
      if s in KeptCells(row) && s in KeptCells(init) {
        var j :| 0 <= j < |init| && Truthy(init[j]) && Norm(init[j]) == s;
        assert row[j] == init[j];
      }
    }
  }

  /** The text of the truthy cells of the whole table, `for r in tbl for c in r if c`. */
  function BodyCells(tbl: Table): seq<string> {
    if tbl == [] then [] else KeptCells(tbl[0]) + BodyCells(tbl[1..])
  }

  lemma {:induction false} BodyCellsHas(tbl: Table, r: nat, j: nat)
    requires r < |tbl| && j < |tbl[r]| && Truthy(tbl[r][j])
    ensures Norm(tbl[r][j]) in BodyCells(tbl)
    decreases r
  {
    if r == 0 {
      KeptCellsHas(tbl[0], j);
    } else {
      BodyCellsHas(tbl[1..], r - 1, j);
    }
  }

  /** `" ".join(norm(c) for c in header)`. */
  function HeaderText(header: Row): string {
    Join(seq(|header|, i requires 0 <= i < |header| => Norm(header[i])), " ")
  }

  /** `" ".join(norm(c) for r in tbl for c in r if c)`. */
  function BodyText(tbl: Table): string {
    Join(BodyCells(tbl), " ")
  }

  const WeeklyKeys: seq<string> := ["주", "week", "핵심어", "keyword", "세부내용", "description"]
  const TextsKeys: seq<string> := ["주교재", "참고교재", "학습준비사항", "수강학생 유의"]
  const BasicKeys: seq<string> := ["강좌명", "담당교수", "년도", "학기", "과목코드", "수강대상학과", "학점/주당시간", "이수구분"]

  /** `sum(k in text for k in keys)`. */
  function CountIn(text: string, keys: seq<string>): (n: nat)
    ensures n <= |keys|
  {
    if keys == [] then 0 else (if Contains(text, keys[0]) then 1 else 0) + CountIn(text, keys[1..])
  }

  /** The keywords of `keys` that occur in `text`. */
  function Found(text: string, keys: seq<string>): set<string> {
    set k | k in keys && Contains(text, k)
  }

  predicate Distinct(keys: seq<string>) {
    forall i, j :: 0 <= i < j < |keys| ==> keys[i] != keys[j]
  }

  /** On distinct keywords, `sum(k in text for k in keys)` is the number of keywords that occur in `text`. */
  lemma {:induction false} CountInFound(text: string, keys: seq<string>)
    requires Distinct(keys)
    ensures CountIn(text, keys) == |Found(text, keys)|
  {
    if keys != [] {
      var rest := keys[1..];
      assert Distinct(rest) by {
        forall i, j | 0 <= i < j < |rest| ensures rest[i] != rest[j] {
          assert rest[i] == keys[i + 1] && rest[j] == keys[j + 1];
        }
      }
      CountInFound(text, rest);
      forall j | 0 <= j < |rest| ensures rest[j] != keys[0] {
        assert rest[j] == keys[j + 1];
      }
      FoundCons(text, keys);
    }
  }

  lemma FoundCons(text: string, keys: seq<string>)
    requires keys != [] && keys[0] !in keys[1..]
    ensures |Found(text, keys)| == (if Contains(text, keys[0]) then 1 else 0) + |Found(text, keys[1..])|
  {
    var rest := keys[1..];
    assert keys == [keys[0]] + rest;
    if Contains(text, keys[0]) {
      assert Found(text, keys) == {keys[0]} + Found(text, rest);
    } else {
      assert Found(text, keys) == Found(text, rest);
    }
  }

  /** `any(k in text for k in keys)`. */
  predicate AnyIn(text: string, keys: seq<string>) {
    exists i :: 0 <= i < |keys| && Contains(text, keys[i])
  }

  predicate IsWeekly(tbl: Table)
    requires tbl != []
  {
    CountIn(Lower(HeaderText(tbl[0])), WeeklyKeys) >= 2
  }

  predicate IsEval(tbl: Table)
    requires tbl != []
  {
    var head := Lower(HeaderText(tbl[0]));
    Contains(head, "평가항목") && Contains(head, "반영비율")
  }

  predicate IsGoals(tbl: Table)
    requires tbl != []
  {
    Contains(Lower(HeaderText(tbl[0])), "교육목표")
  }

  predicate IsTexts(tbl: Table) {
    AnyIn(Lower(BodyText(tbl)), TextsKeys)
  }

  predicate IsBasic(tbl: Table) {
    CountIn(BodyText(tbl), BasicKeys) >= 3
  }

  /**
   * The two counting signatures ask for a number of distinct keywords: a
   * weekly header holds at least two of the weekly keywords, a basic-info
   * table at least three of the basic ones.
   */
  lemma SignatureCounts(tbl: Table)
    ensures IsBasic(tbl) <==> |Found(BodyText(tbl), BasicKeys)| >= 3
    ensures tbl != [] ==> (IsWeekly(tbl) <==> |Found(Lower(HeaderText(tbl[0])), WeeklyKeys)| >= 2)
  {
    assert Distinct(BasicKeys);
    assert Distinct(WeeklyKeys);
    CountInFound(BodyText(tbl), BasicKeys);
    if tbl != [] {
      CountInFound(Lower(HeaderText(tbl[0])), WeeklyKeys);
    }
  }

  datatype Category = Basic | Goals | Evaluation | Texts | Weekly

  /** The signature each category is recognised by. */
  predicate Signature(c: Category, tbl: Table)
    requires tbl != []
  {
    match c
    case Weekly => IsWeekly(tbl)
    case Evaluation => IsEval(tbl)
    case Goals => IsGoals(tbl)
    case Texts => IsTexts(tbl)
    case Basic => IsBasic(tbl)
  }

  /** The order in which the signatures are tried. */
  const Priority: seq<Category> := [Weekly, Evaluation, Goals, Texts, Basic]

  function Rank(c: Category): (k: nat)
    ensures k < |Priority| && Priority[k] == c
  {
    match c
    case Weekly => 0
    case Evaluation => 1
    case Goals => 2
    case Texts => 3
    case Basic => 4
  }

  /** A table is skipped unseen when it has no rows or an empty header row. */
  predicate Skipped(tbl: Table) {
    tbl == [] || tbl[0] == []
  }

  /**
   * The `if/elif` chain of `collect_tables`: the bucket a table goes to, or
   * `None` when it is skipped or matches no signature.
   */
  function Classify(tbl: Table): (r: Option<Category>)
    ensures r.None? <==> Skipped(tbl) || forall c :: !Signature(c, tbl)
    ensures r.Some? ==> Signature(r.value, tbl)
    ensures r.Some? ==> forall c :: Rank(c) < Rank(r.value) ==> !Signature(c, tbl)
  {
    if Skipped(tbl) then None
    else if IsWeekly(tbl) then assert Signature(Weekly, tbl); Some(Weekly)
    else if IsEval(tbl) then assert Signature(Evaluation, tbl); Some(Evaluation)
    else if IsGoals(tbl) then assert Signature(Goals, tbl); Some(Goals)
    else if IsTexts(tbl) then assert Signature(Texts, tbl); Some(Texts)
    else if IsBasic(tbl) then assert Signature(Basic, tbl); Some(Basic)
    else None
  }

  /** An ordered list of (signature, category) pairs, the first match winning. */
  function FirstMatch(cats: seq<Category>, tbl: Table): Option<Category>
    requires tbl != []
  {
    if cats == [] then None
    else if Signature(cats[0], tbl) then Some(cats[0])
    else FirstMatch(cats[1..], tbl)
  }

  /** The `if/elif` chain is the first-match search over `Priority`. */
  lemma ClassifyIsFirstMatch(tbl: Table)
    requires !Skipped(tbl)
    ensures Classify(tbl) == FirstMatch(Priority, tbl)
  {
    var p := Priority;
    assert FirstMatch(p[4..], tbl) == if IsBasic(tbl) then Some(Basic) else None by {
      assert p[4..][1..] == [];
    }
    assert FirstMatch(p[3..], tbl) == if IsTexts(tbl) then Some(Texts) else FirstMatch(p[4..], tbl) by {
      assert p[3..][1..] == p[4..];
    }
    assert FirstMatch(p[2..], tbl) == if IsGoals(tbl) then Some(Goals) else FirstMatch(p[3..], tbl) by {
      assert p[2..][1..] == p[3..];
    }
    assert FirstMatch(p[1..], tbl) == if IsEval(tbl) then Some(Evaluation) else FirstMatch(p[2..], tbl) by {
      assert p[1..][1..] == p[2..];
    }
    assert FirstMatch(p, tbl) == if IsWeekly(tbl) then Some(Weekly) else FirstMatch(p[1..], tbl);
  }

  /** A header with two weekly keywords makes the table weekly, whatever else it holds. */
  lemma WeeklyWins(tbl: Table)
    requires !Skipped(tbl) && IsWeekly(tbl)
    ensures Classify(tbl) == Some(Weekly)
  {
  }

  /**
   * The first three signatures read only the header row: two tables with
   * the same header row that land in one of those buckets land in the same one.
   */
  lemma HeaderDecides(t1: Table, t2: Table)
    requires !Skipped(t1) && !Skipped(t2) && t1[0] == t2[0]
    requires Classify(t1) in {Some(Weekly), Some(Evaluation), Some(Goals)}
    ensures Classify(t2) == Classify(t1)
  {
  }

  lemma {:induction false} JoinHasPart(parts: seq<string>, sep: string, i: nat) returns (a: string, b: string)
    requires i < |parts|
    ensures Join(parts, sep) == a + parts[i] + b
  {
    if |parts| == 1 {
      a, b := "", "";
    } else if i == 0 {
      a, b := "", sep + Join(parts[1..], sep);
    } else {
      var a', b' := JoinHasPart(parts[1..], sep, i - 1);
      a, b := parts[0] + sep + a', b';
    }
  }

  /**
   * The texts signature reads every truthy cell of the table: one cell whose
   * lower-cased text holds a texts keyword makes the table a texts table.
   */
  lemma CellMakesTexts(tbl: Table, r: nat, j: nat, k: nat)
    requires r < |tbl| && j < |tbl[r]| && Truthy(tbl[r][j])
    requires k < |TextsKeys| && Contains(Lower(Norm(tbl[r][j])), TextsKeys[k])
    ensures IsTexts(tbl)
  {
    BodyCellsHas(tbl, r, j);
    var cells := BodyCells(tbl);
    var m :| 0 <= m < |cells| && cells[m] == Norm(tbl[r][j]);
    var a, b := JoinHasPart(cells, " ", m);
    LowerAppend(a + cells[m], b);
    LowerAppend(a, cells[m]);
    ContainsInside(Lower(a), Lower(cells[m]), Lower(b), TextsKeys[k]);
  }

  /** `t[1:]`: a table without its header row. */
  function Body(t: Table): seq<Row> {
    if t == [] then [] else t[1..]
  }

  /** `for t in tables for row in t[1:]`: the non-header rows of all tables, in order. */
  function DataRows(tables: seq<Table>): seq<Row> {
    if tables == [] then [] else DataRows(tables[..|tables| - 1]) + Body(tables[|tables| - 1])
  }

  lemma DataRowsStep(tables: seq<Table>, k: nat)
    requires k < |tables|
    ensures DataRows(tables[..k + 1]) == DataRows(tables[..k]) + Body(tables[k])
  {
    assert tables[..k + 1][..k] == tables[..k];
  }

  lemma {:induction false} DataRowsAppend(a: seq<Table>, b: seq<Table>)
    ensures DataRows(a + b) == DataRows(a) + DataRows(b)
    decreases |b|
  {
    if b == [] {
      assert a + b == a;
    } else {
      assert (a + b)[..|a + b| - 1] == a + b[..|b| - 1];
      DataRowsAppend(a, b[..|b| - 1]);
    }
  }

  /** A row is a data row exactly when it is a row other than the header row of one of the tables. */
  lemma {:induction false} DataRowsMember(tables: seq<Table>, row: Row)
    ensures row in DataRows(tables) <==> exists ti, r :: 0 <= ti < |tables| && 1 <= r < |tables[ti]| && tables[ti][r] == row
    decreases |tables|
  {
    if tables != [] {
      var init := tables[..|tables| - 1];
      var t := tables[|tables| - 1];
      DataRowsMember(init, row);
      if row in Body(t) {
        var r :| 0 <= r < |t[1..]| && t[1..][r] == row;
        assert tables[|tables| - 1][r + 1] == row;
      }
      if exists ti, r :: 0 <= ti < |tables| && 1 <= r < |tables[ti]| && tables[ti][r] == row {
        var ti, r :| 0 <= ti < |tables| && 1 <= r < |tables[ti]| && tables[ti][r] == row;
        if ti < |tables| - 1 {
          assert init[ti][r] == row;
        } else {
          assert t[1..][r - 1] == row;
        }
      }
      if exists ti, r :: 0 <= ti < |init| && 1 <= r < |init[ti]| && init[ti][r] == row {
        var ti, r :| 0 <= ti < |init| && 1 <= r < |init[ti]| && init[ti][r] == row;
        assert tables[ti][r] == row;
      }
    }
  }

  /** The five buckets of `collect_tables`. */
  datatype Buckets = Buckets(basic: seq<Table>, goals: seq<Table>, evaluation: seq<Table>,
                             texts: seq<Table>, weekly: seq<Table>)
  {
    function Get(c: Category): seq<Table> {
      match c
      case Basic => basic
      case Goals => goals
      case Evaluation => evaluation
      case Texts => texts
      case Weekly => weekly
    }

    function Add(c: Category, t: Table): (b: Buckets)
      ensures b.Get(c) == Get(c) + [t]
      ensures forall c' :: c' != c ==> b.Get(c') == Get(c')
    {
      match c
      case Basic => this.(basic := basic + [t])
      case Goals => this.(goals := goals + [t])
      case Evaluation => this.(evaluation := evaluation + [t])
      case Texts => this.(texts := texts + [t])
      case Weekly => this.(weekly := weekly + [t])
    }
  }

  /** The tables classified as `c`, in their original order. */
  function Bucket(tables: seq<Table>, c: Category): seq<Table> {
    if tables == [] then []
    else
      var t := tables[|tables| - 1];
      Bucket(tables[..|tables| - 1], c) + (if Classify(t) == Some(c) then [t] else [])
  }

  /** The tables no bucket receives. */
  function Dropped(tables: seq<Table>): seq<Table> {
    if tables == [] then []
    else
      var t := tables[|tables| - 1];
      Dropped(tables[..|tables| - 1]) + (if Classify(t).None? then [t] else [])
  }

  /** A table is in bucket `c` exactly when it is one of the input tables and classifies as `c`. */
  lemma {:induction false} BucketMembers(tables: seq<Table>, c: Category, t: Table)
    ensures t in Bucket(tables, c) <==> t in tables && Classify(t) == Some(c)
  {
    if tables != [] {
      var init := tables[..|tables| - 1];
      var last := tables[|tables| - 1];
      BucketMembers(init, c, t);
      assert tables == init + [last];
      var hit := Classify(last) == Some(c);
      assert Bucket(tables, c) == Bucket(init, c) + (if hit then [last] else []);
      StepMember(init, last, Bucket(init, c), hit, t);
    }
  }

  /** Membership after one step of a filtering recursion, for any element type. */
  lemma StepMember<T>(init: seq<T>, last: T, before: seq<T>, hit: bool, t: T)
    ensures t in before + (if hit then [last] else []) <==> t in before || (hit && t == last)
    ensures t in init + [last] <==> t in init || t == last
  {
  }

  /**
   * Classification partitions the input: every table lands in exactly one
   * bucket or is dropped, so the bucket sizes and the dropped count add up
   * to the number of tables.
   */
  lemma {:induction false} BucketsPartition(tables: seq<Table>)
    ensures |Bucket(tables, Basic)| + |Bucket(tables, Goals)| + |Bucket(tables, Evaluation)|
          + |Bucket(tables, Texts)| + |Bucket(tables, Weekly)| + |Dropped(tables)| == |tables|
  {
    if tables != [] {
      BucketsPartition(tables[..|tables| - 1]);
    }
  }

  /** The sorting loop of `collect_tables` (lines 49-61) over the tables of all pages. */
  method CollectTables(tables: seq<Table>) returns (b: Buckets)
    ensures forall c :: b.Get(c) == Bucket(tables, c)
  {
    b := Buckets([], [], [], [], []);
    for i := 0 to |tables|
      invariant forall c :: b.Get(c) == Bucket(tables[..i], c)
    {
      var tbl := tables[i];
      assert tables[..i + 1][..i] == tables[..i];
      if tbl == [] || tbl[0] == [] {
        continue;
      }
      if IsWeekly(tbl) {
        b := b.Add(Weekly, tbl);
      } else if IsEval(tbl) {
        b := b.Add(Evaluation, tbl);
      } else if IsGoals(tbl) {
        b := b.Add(Goals, tbl);
      } else if IsTexts(tbl) {
        b := b.Add(Texts, tbl);
      } else if IsBasic(tbl) {
        b := b.Add(Basic, tbl);
      }
    }
    assert tables[..|tables|] == tables;
  }
}
