/**
 * `parse_goals` (preprocess_pdfs.py): the normalised first cell of every
 * non-header row whose first cell is truthy, table after table.
 */
module Goals {
  import opened Wrappers
  import opened Normalize
  import opened Tables

  /** The goal one row contributes: its normalised first cell, when `row and row[0]`. */
  function RowGoal(row: Row): seq<string> {
    if row != [] && Truthy(row[0]) then [Norm(row[0])] else []
  }

  /** The goals of a list of rows, in order. */
  function RowsGoals(rows: seq<Row>): seq<string> {
    if rows == [] then [] else RowsGoals(rows[..|rows| - 1]) + RowGoal(rows[|rows| - 1])
  }

  /** The goal list `parse_goals` returns. */
  function GoalsOf(tables: seq<Table>): seq<string> {
    RowsGoals(DataRows(tables))
  }

  lemma {:induction false} RowsGoalsAppend(a: seq<Row>, b: seq<Row>)
    ensures RowsGoals(a + b) == RowsGoals(a) + RowsGoals(b)
    decreases |b|
  {
    if b == [] {
      assert a + b == a;
    } else {
      assert (a + b)[..|a + b| - 1] == a + b[..|b| - 1];
      RowsGoalsAppend(a, b[..|b| - 1]);
    }
  }

  /** Goals are collected table by table: the goals of `a + b` are those of `a` followed by those of `b`. */
  lemma GoalsAppend(a: seq<Table>, b: seq<Table>)
    ensures GoalsOf(a + b) == GoalsOf(a) + GoalsOf(b)
  {
    DataRowsAppend(a, b);
    RowsGoalsAppend(DataRows(a), DataRows(b));
  }

  /** The header row is never read: replacing it changes nothing. */
  lemma HeaderIgnored(tables: seq<Table>, ti: nat, h: Row)
    requires ti < |tables| && tables[ti] != []
    ensures GoalsOf(tables[ti := [h] + tables[ti][1..]]) == GoalsOf(tables)
  {
    var t' := [h] + tables[ti][1..];
    var other := tables[ti := t'];
    assert Body(t') == Body(tables[ti]);
    assert tables == tables[..ti] + [tables[ti]] + tables[ti + 1..];
    assert other == tables[..ti] + [t'] + tables[ti + 1..];
    DataRowsAppend(tables[..ti] + [tables[ti]], tables[ti + 1..]);
    DataRowsAppend(tables[..ti] + [t'], tables[ti + 1..]);
    DataRowsAppend(tables[..ti], [tables[ti]]);
    DataRowsAppend(tables[..ti], [t']);
    assert DataRows([t']) == Body(t') by { assert [t'][..0] == []; }
    assert DataRows([tables[ti]]) == Body(tables[ti]) by { assert [tables[ti]][..0] == []; }
  }

  /** `g` is the goal of `row`. */
  ghost predicate IsGoalOf(row: Row, g: string) {
    row != [] && Truthy(row[0]) && Norm(row[0]) == g
  }

  /** A string is a goal of some rows exactly when it is the goal of one of them. */
  lemma {:induction false} RowsGoalsMember(rows: seq<Row>, g: string)
    ensures g in RowsGoals(rows) <==> exists row :: row in rows && IsGoalOf(row, g)
    decreases |rows|
  {
    if rows != [] {
      var init := rows[..|rows| - 1];
      var last := rows[|rows| - 1];
      RowsGoalsMember(init, g);
      assert rows == init + [last];
      assert g in RowGoal(last) <==> IsGoalOf(last, g);
    }
  }

  /**
   * A string is a goal exactly when it is the normalised first cell, truthy
   * before normalisation, of a non-header row of one of the tables.
   */
  lemma GoalsMember(tables: seq<Table>, g: string)
    ensures g in GoalsOf(tables) <==>
      exists ti, r :: 0 <= ti < |tables| && 1 <= r < |tables[ti]| && IsGoalOf(tables[ti][r], g)
  {
    RowsGoalsMember(DataRows(tables), g);
    forall row | IsGoalOf(row, g)
      ensures row in DataRows(tables) <==> exists ti, r :: 0 <= ti < |tables| && 1 <= r < |tables[ti]| && tables[ti][r] == row
    {
      DataRowsMember(tables, row);
    }
  }

  /** Every goal is in `norm`'s normal form. */
  lemma GoalsNormal(tables: seq<Table>)
    ensures forall i :: 0 <= i < |GoalsOf(tables)| ==> Normal(GoalsOf(tables)[i])
  {
    var rows := DataRows(tables);
    forall i | 0 <= i < |GoalsOf(tables)| ensures Normal(GoalsOf(tables)[i]) {
      var g := GoalsOf(tables)[i];
      RowsGoalsMember(rows, g);
      var row :| row in rows && IsGoalOf(row, g);
      NormNormal(row[0]);
    }
  }

  lemma RowsGoalsStep(rows: seq<Row>, k: nat)
    requires k < |rows|
    ensures RowsGoals(rows[..k + 1]) == RowsGoals(rows[..k]) + RowGoal(rows[k])
  {
    assert rows[..k + 1][..k] == rows[..k];
  }

  /** The loop over `t[1:]` of one table: its goals appended to those found so far. */
  method AppendGoals(goals0: seq<string>, rows: seq<Row>) returns (goals: seq<string>)
    ensures goals == goals0 + RowsGoals(rows)
  {
    goals := goals0;
    for k := 0 to |rows|
      invariant goals == goals0 + RowsGoals(rows[..k])
    {
      RowsGoalsStep(rows, k);
      var row := rows[k];
      if row != [] && row[0].Some? && row[0].value != "" {
        goals := goals + [Norm(row[0])];
      }
    }
    assert rows[..|rows|] == rows;
  }

  /** `parse_goals`. */
  method ParseGoals(tables: seq<Table>) returns (goals: seq<string>)
    ensures goals == GoalsOf(tables)
  {
    goals := [];
    for ti := 0 to |tables|
      invariant goals == RowsGoals(DataRows(tables[..ti]))
    {
      DataRowsStep(tables, ti);
      RowsGoalsAppend(DataRows(tables[..ti]), Body(tables[ti]));
      goals := AppendGoals(goals, Body(tables[ti]));
    }
    assert tables[..|tables|] == tables;
  }
}
