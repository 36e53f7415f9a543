/**
 * `parse_basic_info` (preprocess_pdfs.py): the key/value pairs of every
 * basic-information table merged into one map, later pairs overwriting
 * earlier ones.
 */
module BasicInfo {
  import opened Strings
  import opened Normalize
  import opened Tables

  /** A key and a value. */
  type Pair = (string, string)

  /** A key as stored: `re.sub(r"\(.*?\)", "", cell).strip()`. */
  function KeyOf(cell: string): string {
    Strip(StripParens(cell))
  }

  /** A stored key has no parenthesised span left and no surrounding whitespace. */
  lemma KeyOfClean(cell: string)
    ensures NoParenSpan(KeyOf(cell)) && NoEdgeSpace(KeyOf(cell))
  {
    StripParensClean(cell);
    StripKeepsNoParenSpan(StripParens(cell));
    var a, b := StripSlice(StripParens(cell));
  }

  /**
   * A key cell with one closed span `(`…`)`: the span goes, the text before it
   * stays as written and the text after it is cleaned the same way, before
   * the surrounding whitespace is stripped.
   */
  lemma KeyDropsSpan(before: string, inside: string, after: string)
    requires forall i :: 0 <= i < |before| ==> before[i] != '('
    requires forall i :: 0 <= i < |inside| ==> inside[i] != ')' && inside[i] != '\n'
    ensures KeyOf(before + "(" + inside + ")" + after) == Strip(before + StripParens(after))
  {
    assert before + "(" + inside + ")" + after == before + ("(" + inside + ")" + after);
    StripParensKeepsPlain(before, "(" + inside + ")" + after);
    StripParensDropsSpan(inside, after);
  }

  /**
   * The positional pairing of the kept cells of one row: cells 0 and 1, 2
   * and 3, …; an odd last cell pairs with nothing. The first cell of a pair
   * is still the raw key cell.
   */
  function RowPairs(cells: seq<string>): (r: seq<Pair>)
    ensures 2 * |r| <= |cells| < 2 * |r| + 2
    decreases |cells|
  {
    if |cells| < 2 then [] else [(cells[0], cells[1])] + RowPairs(cells[2..])
  }

  /** Pair `j` is made of cells `2j` and `2j + 1`. */
  lemma {:induction false} RowPairsAt(cells: seq<string>, j: nat)
    requires 2 * j + 1 < |cells|
    ensures j < |RowPairs(cells)| && RowPairs(cells)[j] == (cells[2 * j], cells[2 * j + 1])
    decreases |cells|
  {
    if j > 0 {
      RowPairsAt(cells[2..], j - 1);
    }
  }

  /** The pairs with their key cells rewritten into keys. */
  function Keyed(ps: seq<Pair>): (r: seq<Pair>)
    ensures |r| == |ps|
  {
    if ps == [] then [] else Keyed(ps[..|ps| - 1]) + [(KeyOf(ps[|ps| - 1].0), ps[|ps| - 1].1)]
  }

  lemma KeyedSnoc(ps: seq<Pair>, p: Pair)
    ensures Keyed(ps + [p]) == Keyed(ps) + [(KeyOf(p.0), p.1)]
  {
    assert (ps + [p])[..|ps|] == ps;
  }

  /** Each pair keeps its value and gets the key its key cell stands for. */
  lemma {:induction false} KeyedAt(ps: seq<Pair>, j: nat)
    requires j < |ps|
    ensures Keyed(ps)[j] == (KeyOf(ps[j].0), ps[j].1)
    decreases |ps|
  {
    if j < |ps| - 1 {
      KeyedAt(ps[..|ps| - 1], j);
    }
  }

  /** The (key, value) pairs of one table, row after row. */
  function TablePairs(t: Table): seq<Pair> {
    if t == [] then [] else TablePairs(t[..|t| - 1]) + Keyed(RowPairs(KeptCells(t[|t| - 1])))
  }

  /** The pairs of all tables, table after table. */
  function AllPairs(tables: seq<Table>): seq<Pair> {
    if tables == [] then [] else AllPairs(tables[..|tables| - 1]) + TablePairs(tables[|tables| - 1])
  }

  /** A pair is stored only when both its key and its value are non-empty. */
  predicate Stored(p: Pair) {
    p.0 != "" && p.1 != ""
  }

  /** `if key and val: info[key] = val`. */
  function Put(m: map<string, string>, p: Pair): map<string, string> {
    if Stored(p) then m[p.0 := p.1] else m
  }

  /** Storing a list of pairs one after the other. */
  function Apply(m: map<string, string>, ps: seq<Pair>): map<string, string> {
    if ps == [] then m else Put(Apply(m, ps[..|ps| - 1]), ps[|ps| - 1])
  }

  /** The course information the parser builds from `tables`. */
  function InfoOf(tables: seq<Table>): map<string, string> {
    Apply(map[], AllPairs(tables))
  }

  lemma ApplySnoc(m: map<string, string>, ps: seq<Pair>, p: Pair)
    ensures Apply(m, ps + [p]) == Put(Apply(m, ps), p)
  {
    assert (ps + [p])[..|ps|] == ps;
  }

  /** Storing `a` and then `b` is storing `a + b`. */
  lemma {:induction false} ApplyAppend(m: map<string, string>, a: seq<Pair>, b: seq<Pair>)
    ensures Apply(m, a + b) == Apply(Apply(m, a), b)
    decreases |b|
  {
    if b == [] {
      assert a + b == a;
    } else {
      assert (a + b)[..|a + b| - 1] == a + b[..|b| - 1];
      ApplyAppend(m, a, b[..|b| - 1]);
    }
  }

  /** `p` is stored, under key `k`. */
  predicate StoredAs(p: Pair, k: string) {
    Stored(p) && p.0 == k
  }

  /** Some pair of `ps` is stored under key `k`. */
  predicate HasKey(ps: seq<Pair>, k: string) {
    exists j :: 0 <= j < |ps| && StoredAs(ps[j], k)
  }

  /** `ps[j]` is stored under key `k` and no later pair is. */
  predicate LastFor(ps: seq<Pair>, k: string, j: int) {
    0 <= j < |ps| && StoredAs(ps[j], k)
    && forall j' :: j < j' < |ps| ==> !StoredAs(ps[j'], k)
  }

  /**
   * Last write wins: after storing `ps`, key `k` is present exactly when it
   * was already or some stored pair has it, and its value is that of the
   * last such pair.
   */
  lemma ApplyLookup(m: map<string, string>, ps: seq<Pair>, k: string)
    ensures k in Apply(m, ps) <==> k in m || HasKey(ps, k)
    ensures forall j :: LastFor(ps, k, j) ==> Apply(m, ps)[k] == ps[j].1
    ensures !HasKey(ps, k) && k in m ==> Apply(m, ps)[k] == m[k]
  {
    ApplyHas(m, ps, k);
    forall j | LastFor(ps, k, j) ensures Apply(m, ps)[k] == ps[j].1 {
      ApplyLast(m, ps, k, j);
    }
  }

  lemma {:induction false} ApplyHas(m: map<string, string>, ps: seq<Pair>, k: string)
    ensures k in Apply(m, ps) <==> k in m || HasKey(ps, k)
    ensures !HasKey(ps, k) && k in m ==> Apply(m, ps)[k] == m[k]
    decreases |ps|
  {
    if ps != [] {
      var init := ps[..|ps| - 1];
      var p := ps[|ps| - 1];
      ApplyHas(m, init, k);
      assert HasKey(ps, k) <==> HasKey(init, k) || StoredAs(p, k) by {
        if HasKey(ps, k) && !StoredAs(p, k) {
          var j :| 0 <= j < |ps| && StoredAs(ps[j], k);
          assert init[j] == ps[j];
        }
        if HasKey(init, k) {
          var j :| 0 <= j < |init| && StoredAs(init[j], k);
          assert ps[j] == init[j];
        }
      }
    }
  }

  lemma {:induction false} ApplyLast(m: map<string, string>, ps: seq<Pair>, k: string, j: int)
    requires LastFor(ps, k, j)
    ensures k in Apply(m, ps) && Apply(m, ps)[k] == ps[j].1
    decreases |ps|
  {
    var init := ps[..|ps| - 1];
    if j < |init| {
      assert LastFor(init, k, j);
      ApplyLast(m, init, k, j);
    }
  }

  /**
   * Every key of the course information is non-empty, has no parenthesised
   * part and no surrounding whitespace; every value is non-empty.
   */
  ghost predicate WellFormed(info: map<string, string>) {
    forall k :: k in info ==> k != "" && NoParenSpan(k) && NoEdgeSpace(k) && info[k] != ""
  }

  ghost predicate GoodPair(p: Pair) {
    NoParenSpan(p.0) && NoEdgeSpace(p.0)
  }

  lemma RowPairsGood(row: Row)
    ensures forall j :: 0 <= j < |Keyed(RowPairs(KeptCells(row)))| ==> GoodPair(Keyed(RowPairs(KeptCells(row)))[j])
  {
    var cells := KeptCells(row);
    var ps := Keyed(RowPairs(cells));
    forall j | 0 <= j < |ps| ensures GoodPair(ps[j]) {
      KeyedAt(RowPairs(cells), j);
      RowPairsAt(cells, j);
      KeyOfClean(cells[2 * j]);
    }
  }

  lemma {:induction false} TablePairsGood(t: Table)
    ensures forall j :: 0 <= j < |TablePairs(t)| ==> GoodPair(TablePairs(t)[j])
    decreases |t|
  {
    if t != [] {
      TablePairsGood(t[..|t| - 1]);
      RowPairsGood(t[|t| - 1]);
    }
  }

  lemma {:induction false} AllPairsGood(tables: seq<Table>)
    ensures forall j :: 0 <= j < |AllPairs(tables)| ==> GoodPair(AllPairs(tables)[j])
    decreases |tables|
  {
    if tables != [] {
      AllPairsGood(tables[..|tables| - 1]);
      TablePairsGood(tables[|tables| - 1]);
    }
  }

  lemma {:induction false} ApplyWellFormed(m: map<string, string>, ps: seq<Pair>)
    requires WellFormed(m)
    requires forall j :: 0 <= j < |ps| ==> GoodPair(ps[j])
    ensures WellFormed(Apply(m, ps))
    decreases |ps|
  {
    if ps != [] {
      ApplyWellFormed(m, ps[..|ps| - 1]);
    }
  }

  lemma InfoWellFormed(tables: seq<Table>)
    ensures WellFormed(InfoOf(tables))
  {
    AllPairsGood(tables);
    ApplyWellFormed(map[], AllPairs(tables));
  }

  /** Last write wins across rows and tables: the value of `k` is that of the last pair stored under `k`. */
  lemma InfoLookup(tables: seq<Table>, k: string)
    ensures k in InfoOf(tables) <==> HasKey(AllPairs(tables), k)
    ensures forall j :: LastFor(AllPairs(tables), k, j) ==> InfoOf(tables)[k] == AllPairs(tables)[j].1
  {
    ApplyLookup(map[], AllPairs(tables), k);
  }

  /** Two more cells after an even number of cells make one more pair. */
  lemma {:induction false} RowPairsSnoc(cells: seq<string>, k: string, v: string)
    requires |cells| == 2 * |RowPairs(cells)|
    ensures RowPairs(cells + [k, v]) == RowPairs(cells) + [(k, v)]
    decreases |cells|
  {
    if |cells| >= 2 {
      assert (cells + [k, v])[2..] == cells[2..] + [k, v];
      RowPairsSnoc(cells[2..], k, v);
    }
  }

  /** An odd last cell pairs with nothing. */
  lemma {:induction false} RowPairsOdd(cells: seq<string>)
    requires |cells| == 2 * |RowPairs(cells)| + 1
    ensures RowPairs(cells) == RowPairs(cells[..|cells| - 1])
    decreases |cells|
  {
    if |cells| >= 2 {
      assert cells[..|cells| - 1][2..] == cells[2..][..|cells| - 3];
      RowPairsOdd(cells[2..]);
    }
  }

  /** One step of the pairing loop: cells `i` and `i + 1` make the next pair, stored after the earlier ones. */
  lemma RowStep(m: map<string, string>, cells: seq<string>, i: nat)
    requires i + 1 < |cells| && i == 2 * |RowPairs(cells[..i])|
    ensures i + 2 == 2 * |RowPairs(cells[..i + 2])|
    ensures Apply(m, Keyed(RowPairs(cells[..i + 2])))
         == Put(Apply(m, Keyed(RowPairs(cells[..i]))), (KeyOf(cells[i]), cells[i + 1]))
  {
    assert cells[..i + 2] == cells[..i] + [cells[i], cells[i + 1]];
    RowPairsSnoc(cells[..i], cells[i], cells[i + 1]);
    KeyedSnoc(RowPairs(cells[..i]), (cells[i], cells[i + 1]));
    ApplySnoc(m, Keyed(RowPairs(cells[..i])), (KeyOf(cells[i]), cells[i + 1]));
  }

  /** When the loop index reaches the last cell of an odd row, every pair has been stored. */
  lemma RowDone(cells: seq<string>, i: nat)
    requires i < |cells| <= i + 1 && i == 2 * |RowPairs(cells[..i])|
    ensures RowPairs(cells[..i]) == RowPairs(cells)
  {
    assert cells[..i] == cells[..|cells| - 1];
    RowPairsOdd(cells);
  }

  /**
   * The body of the pairing loop at an even index `i`: when a cell follows,
   * store the pair unless its key or value is empty.
   */
  method StorePair(info0: map<string, string>, info1: map<string, string>, cells: seq<string>, i: nat)
    returns (info: map<string, string>)
    requires i < |cells| && i == 2 * |RowPairs(cells[..i])|
    requires info1 == Apply(info0, Keyed(RowPairs(cells[..i])))
    ensures i + 2 <= |cells| ==> i + 2 == 2 * |RowPairs(cells[..i + 2])| && info == Apply(info0, Keyed(RowPairs(cells[..i + 2])))
    ensures i + 2 > |cells| ==> info == Apply(info0, Keyed(RowPairs(cells)))
  {
    info := info1;
    if i + 1 < |cells| {
      var key := Strip(StripParens(cells[i]));
      var val := cells[i + 1];
      RowStep(info0, cells, i);
      if key != "" && val != "" {
        info := info[key := val];
      }
    } else {
      RowDone(cells, i);
    }
  }

  /** The innermost loop of `parse_basic_info`: the pairs of one row's kept cells, stored in order. */
  method StoreRow(info0: map<string, string>, cells: seq<string>) returns (info: map<string, string>)
    ensures info == Apply(info0, Keyed(RowPairs(cells)))
  {
    info := info0;
    var i := 0;
    while i < |cells|
      invariant 0 <= i <= |cells| + 1
      invariant i <= |cells| ==> i == 2 * |RowPairs(cells[..i])| && info == Apply(info0, Keyed(RowPairs(cells[..i])))
      invariant i > |cells| ==> info == Apply(info0, Keyed(RowPairs(cells)))
    {
      info := StorePair(info0, info, cells, i);
      i := i + 2;
    }
    if i == |cells| {
      assert cells[..|cells|] == cells;
    }
  }

  lemma TablePairsStep(t: Table, ri: nat)
    requires ri < |t|
    ensures TablePairs(t[..ri + 1]) == TablePairs(t[..ri]) + Keyed(RowPairs(KeptCells(t[ri])))
  {
    assert t[..ri + 1][..ri] == t[..ri];
  }

  lemma AllPairsStep(tables: seq<Table>, ti: nat)
    requires ti < |tables|
    ensures AllPairs(tables[..ti + 1]) == AllPairs(tables[..ti]) + TablePairs(tables[ti])
  {
    assert tables[..ti + 1][..ti] == tables[..ti];
  }

  /** The loop over the rows of one table in `parse_basic_info`. */
  method StoreTable(info0: map<string, string>, t: Table) returns (info: map<string, string>)
    ensures info == Apply(info0, TablePairs(t))
  {
    info := info0;
    for ri := 0 to |t|
      invariant info == Apply(info0, TablePairs(t[..ri]))
    {
      var cells := KeptCells(t[ri]);
      TablePairsStep(t, ri);
      ApplyAppend(info0, TablePairs(t[..ri]), Keyed(RowPairs(cells)));
      info := StoreRow(info, cells);
    }
    assert t[..|t|] == t;
  }

  /** `parse_basic_info`: the loop over the tables. */
  method ParseBasicInfo(tables: seq<Table>) returns (info: map<string, string>)
    ensures info == InfoOf(tables)
    ensures WellFormed(info)
  {
    info := map[];
    for ti := 0 to |tables|
      invariant info == Apply(map[], AllPairs(tables[..ti]))
    {
      AllPairsStep(tables, ti);
      ApplyAppend(map[], AllPairs(tables[..ti]), TablePairs(tables[ti]));
      info := StoreTable(info, tables[ti]);
    }
    assert tables[..|tables|] == tables;
    InfoWellFormed(tables);
  }
}
