/**
 * `dashboard_summary` (app.py): the stable date-descending sort behind
 * `ultimas_transacciones`, its first ten rows, and the route as a whole.
 */
module Dashboard {
  import opened Options
  import opened Lex
  import opened Ledger

  /**
   * One step of a stable descending sort: `x`, which came earlier in the input
   * than every row of `s`, goes before the first row whose date is not later
   * than its own.
   */
  function InsertByFecha(x: Transaction, s: seq<Transaction>): (r: seq<Transaction>)
    ensures |r| == |s| + 1
    ensures multiset(r) == multiset(s) + multiset{x}
  {
    if s == [] || AtMost(s[0].fecha, x.fecha) then [x] + s
    else
      assert s == [s[0]] + s[1..];
      [s[0]] + InsertByFecha(x, s[1..])
  }

  /** `sorted(transactions, key=lambda x: x['fecha'], reverse=True)`. */
  function SortByFechaDesc(s: seq<Transaction>): (r: seq<Transaction>)
    ensures |r| == |s|
    ensures multiset(r) == multiset(s)
  {
    if s == [] then []
    else
      assert s == [s[0]] + s[1..];
      InsertByFecha(s[0], SortByFechaDesc(s[1..]))
  }

  /** Dates never increase along `s`. */
  ghost predicate SortedDesc(s: seq<Transaction>)
  {
    forall i, j :: 0 <= i < j < |s| ==> AtMost(s[j].fecha, s[i].fecha)
  }

  /** The rows of `s` dated `d`, in their order in `s`. */
  function WithFecha(s: seq<Transaction>, d: string): (r: seq<Transaction>)
    ensures |r| <= |s|
  {
    if s == [] then []
    else (if s[0].fecha == d then [s[0]] else []) + WithFecha(s[1..], d)
  }

  /** `ultimas_transacciones`: the first ten rows of the sorted list. */
  function Recent(rows: seq<Transaction>): (recent: seq<Transaction>)
    ensures |recent| == if |rows| < 10 then |rows| else 10
  {
    var sorted := SortByFechaDesc(rows);
    sorted[..if |sorted| < 10 then |sorted| else 10]
  }

  lemma {:induction false} InsertKeepsSorted(x: Transaction, s: seq<Transaction>)
    requires SortedDesc(s)
    ensures SortedDesc(InsertByFecha(x, s))
  {
    var r := InsertByFecha(x, s);
    if s == [] || AtMost(s[0].fecha, x.fecha) {
      forall i, j | 0 <= i < j < |r| ensures AtMost(r[j].fecha, r[i].fecha) {
        if i == 0 {
          if j > 1 {
            AtMostTransitive(r[j].fecha, s[0].fecha, x.fecha);
          }
        }
      }
    } else {
      var tail := InsertByFecha(x, s[1..]);
      InsertKeepsSorted(x, s[1..]);
      assert Below(x.fecha, s[0].fecha);
      BelowAsymmetric(x.fecha, s[0].fecha);
      forall k | 0 <= k < |tail| ensures AtMost(tail[k].fecha, s[0].fecha) {
        assert tail[k] in multiset(tail);
        assert tail[k] == x || tail[k] in multiset(s[1..]);
        if tail[k] != x {
          var n :| 0 <= n < |s[1..]| && s[1..][n] == tail[k];
          assert s[n + 1] == tail[k];
        }
      }
      assert r == [s[0]] + tail;
    }
  }

  /** The sorted list runs from the latest date to the earliest. */
  lemma {:induction false} SortIsSorted(s: seq<Transaction>)
    ensures SortedDesc(SortByFechaDesc(s))
  {
    if s != [] {
      SortIsSorted(s[1..]);
      InsertKeepsSorted(s[0], SortByFechaDesc(s[1..]));
    }
  }

  lemma {:induction false} InsertWithFecha(x: Transaction, s: seq<Transaction>, d: string)
    ensures WithFecha(InsertByFecha(x, s), d) == (if x.fecha == d then [x] else []) + WithFecha(s, d)
  {
    if s == [] || AtMost(s[0].fecha, x.fecha) {
      assert ([x] + s)[1..] == s;
    } else {
      var rest := InsertByFecha(x, s[1..]);
      InsertWithFecha(x, s[1..], d);
      assert s[0].fecha != x.fecha;
      assert ([s[0]] + rest)[1..] == rest;
      var head := if s[0].fecha == d then [s[0]] else [];
      var mine := if x.fecha == d then [x] else [];
      assert head == [] || mine == [];
      calc {
        WithFecha(InsertByFecha(x, s), d);
        head + WithFecha(rest, d);
        head + (mine + WithFecha(s[1..], d));
        mine + (head + WithFecha(s[1..], d));
        mine + WithFecha(s, d);
      }
    }
  }

  /**
   * The sort is stable: for every date, the rows with that date keep the order
   * they had in the input.
   */
  lemma {:induction false} SortIsStable(s: seq<Transaction>, d: string)
    ensures WithFecha(SortByFechaDesc(s), d) == WithFecha(s, d)
  {
    if s != [] {
      SortIsStable(s[1..], d);
      InsertWithFecha(s[0], SortByFechaDesc(s[1..]), d);
    }
  }

  /** Filtering a prefix gives a prefix of the filtered whole. */
  lemma {:induction false} WithFechaOfPrefix(s: seq<Transaction>, k: nat, d: string)
    requires k <= |s|
    ensures WithFecha(s[..k], d) <= WithFecha(s, d)
  {
    if k > 0 {
      WithFechaOfPrefix(s[1..], k - 1, d);
      assert s[..k][1..] == s[1..][..k - 1];
    }
  }

  /** `ultimas_transacciones` holds min(10, n) rows, latest first, all taken from the input. */
  lemma RecentShape(rows: seq<Transaction>)
    ensures |Recent(rows)| == if |rows| < 10 then |rows| else 10
    ensures SortedDesc(Recent(rows))
    ensures multiset(Recent(rows)) <= multiset(rows)
  {
    var sorted := SortByFechaDesc(rows);
    var k := if |sorted| < 10 then |sorted| else 10;
    SortIsSorted(rows);
    assert sorted == Recent(rows) + sorted[k..];
  }

  /** No row that `ultimas_transacciones` leaves out is later than a row it keeps. */
  lemma RecentAreLatest(rows: seq<Transaction>)
    ensures forall x, y :: x in Recent(rows) && y in multiset(rows) - multiset(Recent(rows)) ==> AtMost(y.fecha, x.fecha)
  {
    var sorted := SortByFechaDesc(rows);
    var k := if |sorted| < 10 then |sorted| else 10;
    var r := Recent(rows);
    SortIsSorted(rows);
    assert sorted == r + sorted[k..];
    assert multiset(sorted) == multiset(r) + multiset(sorted[k..]);
    forall x, y | x in r && y in multiset(rows) - multiset(r) ensures AtMost(y.fecha, x.fecha) {
      var i :| 0 <= i < k && r[i] == x;
      assert y in multiset(sorted[k..]);
      var j :| 0 <= j < |sorted[k..]| && sorted[k..][j] == y;
      assert sorted[i] == x && sorted[k + j] == y;
    }
  }

  /** Rows of equal date in `ultimas_transacciones` are the first of that date's rows, in fetch order. */
  lemma RecentIsStable(rows: seq<Transaction>, d: string)
    ensures WithFecha(Recent(rows), d) <= WithFecha(rows, d)
  {
    var sorted := SortByFechaDesc(rows);
    WithFechaOfPrefix(sorted, if |sorted| < 10 then |sorted| else 10, d);
    SortIsStable(rows, d);
  }

  /** One income of 500000 and two food expenses of 120000 and 30000 in February 2024. */
  function FebruaryRows(): seq<Transaction>
  {
    [ Transaction("t1", "u", "2024-02-05", "salary", 500000, "", "ingreso", ""),
      Transaction("t2", "u", "2024-02-10", "food", 120000, "", "gasto", ""),
      Transaction("t3", "u", "2024-02-20", "food", 30000, "", "gasto", "") ]
  }

  /** "food" is the only category with an expense. */
  lemma FebruaryCategories()
    ensures forall c :: HasExpenseIn(FebruaryRows(), c) <==> c == "food"
  {
    var rows := FebruaryRows();
    forall c | HasExpenseIn(rows, c) ensures c == "food" {
      var i :| 0 <= i < |rows| && rows[i].tipo == Gasto && rows[i].categoria == c;
      assert i == 1 || i == 2;
    }
    assert rows[1].tipo == Gasto && rows[1].categoria == "food";
  }

  /** All three rows are the user's and fall in February 2024. */
  lemma FebruaryInMonth()
    ensures MonthRows(FebruaryRows(), "u", "2024-02") == FebruaryRows()
  {
    var rows := FebruaryRows();
    assert "2024-02-05"[..8] == "2024-02-" && "2024-02-05"[8..] == "05";
    assert "2024-02-10"[..8] == "2024-02-" && "2024-02-10"[8..] == "10";
    assert "2024-02-20"[..8] == "2024-02-" && "2024-02-20"[8..] == "20";
    assert DayInWindow("05") && DayInWindow("10") && DayInWindow("20");
    assert rows[1..][1..][1..] == [];
  }

  /** Income 500000, expenses 150000, balance 350000, all of the expenses under "food". */
  lemma FebruaryTotals()
    ensures TotalIngresos(FebruaryRows()) == 500000
    ensures TotalGastos(FebruaryRows()) == 150000
    ensures TotalIngresos(FebruaryRows()) - TotalGastos(FebruaryRows()) == 350000
    ensures CategorySum(FebruaryRows(), "food") == 150000
    ensures HasExpenseIn(FebruaryRows(), "food") && !HasExpenseIn(FebruaryRows(), "salary")
    ensures forall c :: HasExpenseIn(FebruaryRows(), c) <==> c == "food"
    ensures MonthRows(FebruaryRows(), "u", "2024-02") == FebruaryRows()
  {
    FebruaryCategories();
    FebruaryInMonth();
    var rows := FebruaryRows();
    assert rows[..3 - 1] == rows[..2] && rows[..2][..1] == rows[..1] && rows[..1][..0] == [];
    assert rows[1].tipo == Gasto && rows[0].tipo != Gasto && rows[0].tipo == Ingreso;
    assert rows[1].tipo != Ingreso && rows[2].tipo != Ingreso;
    assert TotalIngresos(rows[..1]) == 500000;
    assert TotalIngresos(rows[..2]) == 500000;
    assert CategorySum(rows[..1], "food") == 0;
    assert CategorySum(rows[..2], "food") == 120000;
  }

  /** Three rows with strictly increasing dates come out in reverse. */
  lemma SortThreeAscending(a: Transaction, b: Transaction, c: Transaction)
    requires Below(a.fecha, b.fecha) && Below(b.fecha, c.fecha)
    ensures SortByFechaDesc([a, b, c]) == [c, b, a]
  {
    BelowTransitive(a.fecha, b.fecha, c.fecha);
    BelowAsymmetric(a.fecha, b.fecha);
    BelowAsymmetric(b.fecha, c.fecha);
    BelowAsymmetric(a.fecha, c.fecha);
    assert [a, b, c][1..] == [b, c] && [b, c][1..] == [c];
    assert SortByFechaDesc([c]) == [c];
    assert InsertByFecha(b, [c]) == [c, b];
    assert InsertByFecha(a, [b]) == [b, a];
    assert InsertByFecha(a, [c, b]) == [c, b, a];
  }

  /** The JSON object `dashboard_summary` answers with. */
  datatype Summary = Summary(
    totalIngresos: int,
    totalGastos: int,
    balance: int,
    gastosPorCategoria: map<string, int>,
    ultimasTransacciones: seq<Transaction>,
    mesSeleccionado: string)

  /**
   * `dashboard_summary` for the session's user. `currentMonth` stands for
   * `datetime.now().strftime('%Y-%m')`; `table` for the transactions table.
   */
  method DashboardSummary(table: seq<Transaction>, userId: string, monthArg: Option<string>, currentMonth: string)
    returns (s: Summary)
    ensures s.mesSeleccionado == SelectedMonth(monthArg, currentMonth)
    ensures var rows := MonthRows(table, userId, s.mesSeleccionado);
      && s.totalIngresos == TotalIngresos(rows)
      && s.totalGastos == TotalGastos(rows)
      && s.totalGastos >= 0
      && s.balance == s.totalIngresos - s.totalGastos
      && (forall c :: c in s.gastosPorCategoria <==> HasExpenseIn(rows, c))
      && (forall c :: c in s.gastosPorCategoria ==> s.gastosPorCategoria[c] == CategorySum(rows, c))
      && SumValues(s.gastosPorCategoria) == s.totalGastos
      && s.ultimasTransacciones == Recent(rows)
      && SortedDesc(s.ultimasTransacciones)
      && |s.ultimasTransacciones| == (if |rows| < 10 then |rows| else 10)
  {
    var month := SelectedMonth(monthArg, currentMonth);
    var rows := MonthRows(table, userId, month);
    var ingresos := TotalIngresos(rows);
    var gastos := TotalGastos(rows);
    var porCategoria := GroupExpensesByCategory(rows);
    RecentShape(rows);
    s := Summary(ingresos, gastos, ingresos - gastos, porCategoria, Recent(rows), month);
  }
}
