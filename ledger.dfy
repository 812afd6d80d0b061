/**
 * The monthly reduction behind `dashboard_summary` (app.py): which rows fall in
 * a month, the income and expense totals, and the per-category expense map
 * that the route builds in a dictionary loop.
 */
module Ledger {
  import opened Options
  import opened Lex

  /** A row of the transactions table. */
  datatype Transaction = Transaction(
    id: string,
    usuarioId: string,
    fecha: string,
    categoria: string,
    monto: int,
    descripcion: string,
    tipo: string,
    createdAt: string)

  const Ingreso: string := "ingreso"
  const Gasto: string := "gasto"

  function Abs(x: int): (r: int)
    ensures r >= 0 && (r == x || r == -x)
  {
    if x < 0 then -x else x
  }

  // ---------------------------------------------------------------------------
  // The month window

  /** The day part admitted by the window: from "01" up to, but excluding, "32". */
  predicate DayInWindow(day: string)
  {
    AtMost("01", day) && Below(day, "32")
  }

  /**
   * `fecha >= "{month}-01"` and `fecha < "{month}-32"`, compared as strings.
   * The window holds exactly the dates that start with "{month}-" and whose
   * remainder lies in ["01", "32"): a day "30" or "31" of any month passes.
   */
  predicate InMonth(fecha: string, month: string)
    ensures InMonth(fecha, month) <==>
      |month| + 1 <= |fecha| && fecha[..|month| + 1] == month + "-" && DayInWindow(fecha[|month| + 1..])
  {
    WindowByPrefix(fecha, month);
    AtMost(month + "-01", fecha) && Below(fecha, month + "-32")
  }

  /** The two string comparisons of the window, reduced to the prefix "{month}-" and the day after it. */
  lemma WindowByPrefix(fecha: string, month: string)
    ensures AtMost(month + "-01", fecha) && Below(fecha, month + "-32") <==>
      |month| + 1 <= |fecha| && fecha[..|month| + 1] == month + "-" && DayInWindow(fecha[|month| + 1..])
  {
    var p := month + "-";
    assert month + "-01" == p + "01";
    assert month + "-32" == p + "32";
    if |p| <= |fecha| && fecha[..|p|] == p {
      var day := fecha[|p|..];
      assert fecha == p + day;
      BelowCommonPrefix(p, day, "01");
      BelowCommonPrefix(p, "01", day);
      BelowCommonPrefix(p, day, "32");
    } else {
      BelowOffPrefix(p, fecha, "01", "32");
    }
  }

  /**
   * The window is not calendar-aware: "2024-02-30" and "2024-02-31" count as
   * February 2024, "2024-03-01" and "2024-01-31" do not.
   */
  lemma WindowIsLoose()
    ensures InMonth("2024-02-30", "2024-02") && InMonth("2024-02-31", "2024-02")
    ensures !InMonth("2024-03-01", "2024-02") && !InMonth("2024-01-31", "2024-02")
  {
    assert "2024-02-30"[..8] == "2024-02-" && "2024-02-30"[8..] == "30";
    assert DayInWindow("30");
    assert "2024-02-31"[..8] == "2024-02-" && "2024-02-31"[8..] == "31";
    assert DayInWindow("31");
    assert "2024-03-01"[6] != "2024-02-"[6];
    assert "2024-01-31"[6] != "2024-02-"[6];
  }

  /** The month the route reports on: the query argument, or the current month when it is missing or empty. */
  function SelectedMonth(arg: Option<string>, currentMonth: string): (month: string)
    ensures arg.Some? && arg.value != "" ==> month == arg.value
    ensures arg == None || arg == Some("") ==> month == currentMonth
  {
    if arg.Some? && arg.value != "" then arg.value else currentMonth
  }

  /** The rows the route fetches: the user's rows inside the month window, in table order. */
  function MonthRows(table: seq<Transaction>, userId: string, month: string): (rows: seq<Transaction>)
    ensures |rows| <= |table|
    ensures forall t :: t in rows <==> t in table && t.usuarioId == userId && InMonth(t.fecha, month)
  {
    if table == [] then []
    else
      var rest := MonthRows(table[1..], userId, month);
      var t := table[0];
      assert forall x :: x in table <==> x == t || x in table[1..];
      if t.usuarioId == userId && InMonth(t.fecha, month) then [t] + rest else rest
  }

  /**
   * The query returns each matching row as many times as the table holds it,
   * and no other row at all.
   */
  lemma {:induction false} MonthRowsCount(table: seq<Transaction>, userId: string, month: string)
    ensures forall t ::
      multiset(MonthRows(table, userId, month))[t] ==
      (if t.usuarioId == userId && InMonth(t.fecha, month) then multiset(table)[t] else 0)
  {
    if table != [] {
      MonthRowsCount(table[1..], userId, month);
      assert table == [table[0]] + table[1..];
    }
  }

  // ---------------------------------------------------------------------------
  // Totals

  /** What a row adds to `total_ingresos`: its raw amount if it is income. */
  function IncomeOf(t: Transaction): (income: int)
    ensures t.tipo != Ingreso ==> income == 0
    ensures t.tipo == Ingreso ==> income == t.monto
  {
    if t.tipo == Ingreso then t.monto else 0
  }

  /** What a row adds to `total_gastos`: its absolute amount if it is an expense. */
  function ExpenseOf(t: Transaction): (e: int)
    ensures e >= 0
    ensures t.tipo != Gasto ==> e == 0
    ensures t.tipo == Gasto ==> e == Abs(t.monto)
  {
    if t.tipo == Gasto then Abs(t.monto) else 0
  }

  /** `sum(t['monto'] for t in transactions if t['tipo'] == 'ingreso')`. */
  function TotalIngresos(rows: seq<Transaction>): (total: int)
    ensures (forall i :: 0 <= i < |rows| ==> rows[i].tipo != Ingreso) ==> total == 0
    ensures (forall i :: 0 <= i < |rows| ==> rows[i].monto >= 0) ==> total >= 0
  {
    if rows == [] then 0 else TotalIngresos(rows[..|rows| - 1]) + IncomeOf(rows[|rows| - 1])
  }

  /** `sum(abs(t['monto']) for t in transactions if t['tipo'] == 'gasto')`; never negative. */
  function TotalGastos(rows: seq<Transaction>): (total: int)
    ensures total >= 0
    ensures (forall i :: 0 <= i < |rows| ==> rows[i].tipo != Gasto) ==> total == 0
  {
    if rows == [] then 0 else TotalGastos(rows[..|rows| - 1]) + ExpenseOf(rows[|rows| - 1])
  }

  /** The expense total of one category. */
  function CategorySum(rows: seq<Transaction>, c: string): (total: int)
    ensures total >= 0
  {
    if rows == [] then 0
    else
      var t := rows[|rows| - 1];
      CategorySum(rows[..|rows| - 1], c) + (if t.categoria == c then ExpenseOf(t) else 0)
  }

  /** Some expense row carries category `c`. */
  predicate HasExpenseIn(rows: seq<Transaction>, c: string)
  {
    exists i :: 0 <= i < |rows| && rows[i].tipo == Gasto && rows[i].categoria == c
  }

  /** The rows that are income or expense. */
  function Typed(rows: seq<Transaction>): (typed: seq<Transaction>)
    ensures forall t :: t in typed <==> t in rows && (t.tipo == Ingreso || t.tipo == Gasto)
  {
    if rows == [] then []
    else
      var t := rows[|rows| - 1];
      assert forall x :: x in rows <==> x == t || x in rows[..|rows| - 1];
      Typed(rows[..|rows| - 1]) + (if t.tipo == Ingreso || t.tipo == Gasto then [t] else [])
  }

  /** Rows whose type is neither "ingreso" nor "gasto" contribute to no total. */
  lemma {:induction false} UntypedRowsIgnored(rows: seq<Transaction>)
    ensures TotalIngresos(rows) == TotalIngresos(Typed(rows))
    ensures TotalGastos(rows) == TotalGastos(Typed(rows))
  {
    if rows != [] {
      var init, t := rows[..|rows| - 1], rows[|rows| - 1];
      UntypedRowsIgnored(init);
      if t.tipo == Ingreso || t.tipo == Gasto {
        assert (Typed(init) + [t])[..|Typed(init) + [t]| - 1] == Typed(init);
      } else {
        assert Typed(init) + [] == Typed(init);
      }
    }
  }

  /** How the prefix quantities grow when the prefix takes one more row. */
  lemma PrefixStep(rows: seq<Transaction>, i: nat)
    requires i < |rows|
    ensures TotalGastos(rows[..i + 1]) == TotalGastos(rows[..i]) + ExpenseOf(rows[i])
    ensures forall c ::
      CategorySum(rows[..i + 1], c) == CategorySum(rows[..i], c) + (if rows[i].categoria == c then ExpenseOf(rows[i]) else 0)
    ensures forall c :: HasExpenseIn(rows[..i + 1], c) <==>
      HasExpenseIn(rows[..i], c) || (rows[i].tipo == Gasto && rows[i].categoria == c)
  {
    var init := rows[..i + 1];
    assert init[..i] == rows[..i];
    forall c ensures HasExpenseIn(init, c) ==> HasExpenseIn(rows[..i], c) || (rows[i].tipo == Gasto && rows[i].categoria == c) {
      if HasExpenseIn(init, c) {
        var j :| 0 <= j < i + 1 && init[j].tipo == Gasto && init[j].categoria == c;
        if j < i {
          assert rows[..i][j] == init[j];
        }
      }
    }
    forall c ensures HasExpenseIn(rows[..i], c) ==> HasExpenseIn(init, c) {
      if HasExpenseIn(rows[..i], c) {
        var j :| 0 <= j < i && rows[..i][j].tipo == Gasto && rows[..i][j].categoria == c;
        assert init[j] == rows[..i][j];
      }
    }
  }

  // ---------------------------------------------------------------------------
  // The category map

  /** The sum of all values of a map. */
  ghost function SumValues(m: map<string, int>): int
    decreases |m|
  {
    if m == map[] then 0
    else
      var k :| k in m;
      assert |m - {k}| < |m| by { assert m.Keys - {k} == (m - {k}).Keys; }
      m[k] + SumValues(m - {k})
  }

  /** The sum may start from any key. */
  lemma {:induction false} SumValuesRemove(m: map<string, int>, k: string)
    requires k in m
    ensures SumValues(m) == m[k] + SumValues(m - {k})
    decreases |m|
  {
    var j :| j in m && SumValues(m) == m[j] + SumValues(m - {j});
    if j != k {
      assert |m - {j}| < |m| by { assert m.Keys - {j} == (m - {j}).Keys; }
      assert |m - {k}| < |m| by { assert m.Keys - {k} == (m - {k}).Keys; }
      SumValuesRemove(m - {j}, k);
      SumValuesRemove(m - {k}, j);
      assert m - {j} - {k} == m - {k} - {j};
    }
  }

  /** Setting one key changes the sum by the change at that key. */
  lemma SumValuesUpdate(m: map<string, int>, k: string, v: int)
    ensures SumValues(m[k := v]) == SumValues(m) - (if k in m then m[k] else 0) + v
  {
    SumValuesRemove(m[k := v], k);
    if k in m {
      SumValuesRemove(m, k);
      assert m[k := v] - {k} == m - {k};
    } else {
      assert m[k := v] - {k} == m;
    }
  }

  /**
   * `m` is the category map of `rows`: its keys are exactly the expense
   * categories, each value is that category's total, and the values add up to
   * `total_gastos`.
   */
  ghost predicate GroupedBy(m: map<string, int>, rows: seq<Transaction>)
  {
    (forall c :: c in m <==> HasExpenseIn(rows, c))
    && (forall c :: CategorySum(rows, c) == if c in m then m[c] else 0)
    && SumValues(m) == TotalGastos(rows)
  }

  /** The map after one turn of the loop over row `t`. */
  ghost function AfterRow(m: map<string, int>, t: Transaction): map<string, int>
  {
    if t.tipo == Gasto
    then m[t.categoria := (if t.categoria in m then m[t.categoria] else 0) + Abs(t.monto)]
    else m
  }

  /** The keys after one turn: the expense categories of one more row. */
  lemma StepKeys(rows: seq<Transaction>, i: nat, m: map<string, int>)
    requires i < |rows| && forall c :: c in m <==> HasExpenseIn(rows[..i], c)
    ensures forall c :: c in AfterRow(m, rows[i]) <==> HasExpenseIn(rows[..i + 1], c)
  {
    PrefixStep(rows, i);
  }

  /** The values after one turn: each category total of one more row. */
  lemma StepValues(rows: seq<Transaction>, i: nat, m: map<string, int>)
    requires i < |rows| && forall c :: CategorySum(rows[..i], c) == if c in m then m[c] else 0
    ensures forall c :: CategorySum(rows[..i + 1], c) == if c in AfterRow(m, rows[i]) then AfterRow(m, rows[i])[c] else 0
  {
    PrefixStep(rows, i);
  }

  /** The sum after one turn: `total_gastos` of one more row. */
  lemma StepSum(rows: seq<Transaction>, i: nat, m: map<string, int>)
    requires i < |rows| && SumValues(m) == TotalGastos(rows[..i])
    ensures SumValues(AfterRow(m, rows[i])) == TotalGastos(rows[..i + 1])
  {
    PrefixStep(rows, i);
    var t := rows[i];
    if t.tipo == Gasto {
      var previous := if t.categoria in m then m[t.categoria] else 0;
      SumValuesUpdate(m, t.categoria, previous + Abs(t.monto));
    }
  }

  /** One turn of the loop keeps the map in step with the rows seen so far. */
  lemma GroupedStep(rows: seq<Transaction>, i: nat, m: map<string, int>)
    requires i < |rows| && GroupedBy(m, rows[..i])
    ensures GroupedBy(AfterRow(m, rows[i]), rows[..i + 1])
  {
    StepKeys(rows, i, m);
    StepValues(rows, i, m);
    StepSum(rows, i, m);
  }

  /**
   * The `gastos_por_categoria` loop: for each expense row, in order, add its
   * absolute amount to its category's entry, starting absent categories at 0.
   */
  method GroupExpensesByCategory(rows: seq<Transaction>) returns (m: map<string, int>)
    ensures forall c :: c in m <==> HasExpenseIn(rows, c)
    ensures forall c :: c in m ==> m[c] == CategorySum(rows, c)
    ensures SumValues(m) == TotalGastos(rows)
  {
    m := map[];
    for i := 0 to |rows|
      invariant GroupedBy(m, rows[..i])
    {
      ghost var before := m;
      var t := rows[i];
      if t.tipo == Gasto {
        var categoria := t.categoria;
        m := m[categoria := (if categoria in m then m[categoria] else 0) + Abs(t.monto)];
      }
      assert m == AfterRow(before, t);
      GroupedStep(rows, i, before);
    }
    assert rows[..|rows|] == rows;
  }

  /** No category total exceeds `total_gastos`, and a category without expenses totals 0. */
  lemma {:induction false} CategorySumsBounded(rows: seq<Transaction>, c: string)
    ensures CategorySum(rows, c) <= TotalGastos(rows)
    ensures !HasExpenseIn(rows, c) ==> CategorySum(rows, c) == 0
  {
    if rows != [] {
      var init := rows[..|rows| - 1];
      CategorySumsBounded(init, c);
      PrefixStep(rows, |rows| - 1);
      assert rows[..|rows|] == rows;
    }
  }
}
