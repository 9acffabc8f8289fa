/**
 * The investor's monthly gains chart (`TemporalMonthlyChart`): gains grouped
 * by calendar month, the four most recent months in ascending order, and a
 * single zero point when there is nothing to show.
 */
module TemporalMonthlyChart {
  import opened Text
  import opened Ledger
  import opened Tables

  /** A calendar month; stands for the locale month label used as the map key. */
  datatype MonthKey = MonthKey(year: int, month: int)

  /** One bar: its month, its summed gain, and the date that orders it. */
  datatype Point = Point(mes: MonthKey, ganancia: real, mesOrden: int)

  /** The rows the query selects: the investor's rows whose type is exactly "ganancia". */
  function GainRowsOf(txs: seq<Tx>, user: Id): (r: seq<Tx>)
    ensures forall t :: t in r <==> t in txs && t.inversorId == Some(user) && t.tipo == "ganancia"
  {
    if txs == [] then []
    else
      var t := txs[|txs| - 1];
      var r := GainRowsOf(txs[..|txs| - 1], user);
      assert forall u :: u in txs <==> u in txs[..|txs| - 1] || u == t by {
        assert txs == txs[..|txs| - 1] + [t];
      }
      if t.inversorId == Some(user) && t.tipo == "ganancia" then r + [t] else r
  }

  /** `.order('fecha', { ascending: false })`. */
  predicate NewestFirst(rows: seq<Tx>)
  {
    forall i, j :: 0 <= i < j < |rows| ==> rows[i].fecha >= rows[j].fecha
  }

  /** `monthlyMap.has(key)` / `get(key)`: where the key's entry sits, if anywhere. */
  function IndexOf(ps: seq<Point>, k: MonthKey): (r: Option<nat>)
    ensures r.Some? ==> r.value < |ps| && ps[r.value].mes == k
    ensures r.None? ==> forall i :: 0 <= i < |ps| ==> ps[i].mes != k
  {
    if ps == [] then None
    else if ps[|ps| - 1].mes == k then Some(|ps| - 1)
    else IndexOf(ps[..|ps| - 1], k)
  }

  /** One `forEach` step: open the month's entry with the row's date if new, then add the amount. */
  function AddRow(ps: seq<Point>, k: MonthKey, monto: real, fecha: int): seq<Point>
  {
    match IndexOf(ps, k)
    case Some(j) => ps[j := ps[j].(ganancia := ps[j].ganancia + monto)]
    case None => ps + [Point(k, monto, fecha)]
  }

  /** The map's entries in insertion order after the whole `forEach`. */
  function Group(rows: seq<Tx>, monthOf: int -> MonthKey): seq<Point>
  {
    if rows == [] then []
    else
      var t := rows[|rows| - 1];
      AddRow(Group(rows[..|rows| - 1], monthOf), monthOf(t.fecha), t.monto, t.fecha)
  }

  /** Sum of the amounts of the rows dated in month `k`. */
  function MonthSum(rows: seq<Tx>, k: MonthKey, monthOf: int -> MonthKey): real
  {
    if rows == [] then 0.0
    else MonthSum(rows[..|rows| - 1], k, monthOf) + (if monthOf(rows[|rows| - 1].fecha) == k then rows[|rows| - 1].monto else 0.0)
  }

  /** Sum of all row amounts. */
  function RowsSum(rows: seq<Tx>): real
  {
    if rows == [] then 0.0 else RowsSum(rows[..|rows| - 1]) + rows[|rows| - 1].monto
  }

  predicate UniqueMonths(ps: seq<Point>)
  {
    forall i, j :: 0 <= i < j < |ps| ==> ps[i].mes != ps[j].mes
  }

  /** `chartData.reduce((sum, item) => sum + item.ganancia, 0)`. */
  function TotalGanancias(ps: seq<Point>): real
  {
    if ps == [] then 0.0 else TotalGanancias(ps[..|ps| - 1]) + ps[|ps| - 1].ganancia
  }

  /** Some entry of `ps` is keyed by month `k`. */
  predicate HasMonth(ps: seq<Point>, k: MonthKey)
  {
    exists i :: 0 <= i < |ps| && ps[i].mes == k
  }

  /** Some row is dated in month `k`. */
  predicate RowInMonth(rows: seq<Tx>, k: MonthKey, monthOf: int -> MonthKey)
  {
    exists t :: t in rows && monthOf(t.fecha) == k
  }

  lemma AddRowShape(ps: seq<Point>, k: MonthKey, monto: real, fecha: int)
    ensures IndexOf(ps, k).Some? ==> |AddRow(ps, k, monto, fecha)| == |ps|
    ensures IndexOf(ps, k).None? ==> AddRow(ps, k, monto, fecha) == ps + [Point(k, monto, fecha)]
    ensures forall i :: 0 <= i < |ps| ==> AddRow(ps, k, monto, fecha)[i].mes == ps[i].mes
    ensures forall i :: 0 <= i < |ps| ==> AddRow(ps, k, monto, fecha)[i].mesOrden == ps[i].mesOrden
  {
  }

  /** Grouping never yields two entries for the same month. */
  lemma {:induction false} GroupUnique(rows: seq<Tx>, monthOf: int -> MonthKey)
    ensures UniqueMonths(Group(rows, monthOf))
  {
    if rows != [] {
      var t := rows[|rows| - 1];
      GroupUnique(rows[..|rows| - 1], monthOf);
      AddRowShape(Group(rows[..|rows| - 1], monthOf), monthOf(t.fecha), t.monto, t.fecha);
    }
  }

  /** There is an entry for a month exactly when some row falls in it. */
  lemma {:induction false} GroupMonths(rows: seq<Tx>, k: MonthKey, monthOf: int -> MonthKey)
    ensures HasMonth(Group(rows, monthOf), k) <==> RowInMonth(rows, k, monthOf)
  {
    if rows != [] {
      var rows' := rows[..|rows| - 1];
      var t := rows[|rows| - 1];
      var g := Group(rows', monthOf);
      var g2 := Group(rows, monthOf);
      GroupMonths(rows', k, monthOf);
      AddRowShape(g, monthOf(t.fecha), t.monto, t.fecha);
      assert rows == rows' + [t];
      assert RowInMonth(rows, k, monthOf) <==> RowInMonth(rows', k, monthOf) || monthOf(t.fecha) == k;
      if HasMonth(g, k) {
        var i :| 0 <= i < |g| && g[i].mes == k;
        assert g2[i].mes == k;
      }
      if HasMonth(g2, k) && monthOf(t.fecha) != k {
        var i :| 0 <= i < |g2| && g2[i].mes == k;
        assert i < |g|;
      }
      if monthOf(t.fecha) == k {
        match IndexOf(g, k)
        case Some(j) => assert g2[j].mes == k;
        case None => assert g2[|g|].mes == k;
      }
    }
  }

  /** Each entry holds the sum of its month's amounts. */
  lemma {:induction false} GroupSums(rows: seq<Tx>, monthOf: int -> MonthKey)
    ensures forall i :: 0 <= i < |Group(rows, monthOf)| ==>
      Group(rows, monthOf)[i].ganancia == MonthSum(rows, Group(rows, monthOf)[i].mes, monthOf)
  {
    if rows != [] {
      var rows' := rows[..|rows| - 1];
      var t := rows[|rows| - 1];
      var k := monthOf(t.fecha);
      var g := Group(rows', monthOf);
      GroupSums(rows', monthOf);
      GroupUnique(rows', monthOf);
      match IndexOf(g, k)
      case Some(j) =>
      case None =>
        GroupMonths(rows', k, monthOf);
        MonthSumAbsent(rows', k, monthOf);
    }
  }

  /** The entries together hold every row's amount. */
  lemma {:induction false} GroupTotal(rows: seq<Tx>, monthOf: int -> MonthKey)
    ensures TotalGanancias(Group(rows, monthOf)) == RowsSum(rows)
  {
    if rows != [] {
      var rows' := rows[..|rows| - 1];
      var t := rows[|rows| - 1];
      var k := monthOf(t.fecha);
      var g := Group(rows', monthOf);
      GroupTotal(rows', monthOf);
      match IndexOf(g, k)
      case Some(j) =>
        TotalUpdate(g, j, g[j].ganancia + t.monto);
      case None =>
        var g2 := g + [Point(k, t.monto, t.fecha)];
        assert g2[..|g2| - 1] == g;
    }
  }

  lemma {:induction false} MonthSumAbsent(rows: seq<Tx>, k: MonthKey, monthOf: int -> MonthKey)
    requires forall t :: t in rows ==> monthOf(t.fecha) != k
    ensures MonthSum(rows, k, monthOf) == 0.0
  {
    if rows != [] {
      assert rows[|rows| - 1] in rows;
      assert forall t :: t in rows[..|rows| - 1] ==> t in rows;
      MonthSumAbsent(rows[..|rows| - 1], k, monthOf);
    }
  }

  lemma {:induction false} TotalUpdate(ps: seq<Point>, j: nat, v: real)
    requires j < |ps|
    ensures TotalGanancias(ps[j := ps[j].(ganancia := v)]) == TotalGanancias(ps) - ps[j].ganancia + v
  {
    var q := ps[j := ps[j].(ganancia := v)];
    if j < |ps| - 1 {
      assert q[..|q| - 1] == ps[..|ps| - 1][j := ps[j].(ganancia := v)];
      TotalUpdate(ps[..|ps| - 1], j, v);
    } else {
      assert q[..|q| - 1] == ps[..|ps| - 1];
    }
  }

  /** No row of `p`'s month is dated after `p.mesOrden`. */
  predicate NotOlder(rows: seq<Tx>, p: Point, monthOf: int -> MonthKey)
  {
    forall t :: t in rows && monthOf(t.fecha) == p.mes ==> t.fecha <= p.mesOrden
  }

  /** Some row of `p`'s month is dated exactly `p.mesOrden`. */
  predicate Attained(rows: seq<Tx>, p: Point, monthOf: int -> MonthKey)
  {
    exists t :: t in rows && monthOf(t.fecha) == p.mes && t.fecha == p.mesOrden
  }

  /** Each entry's date is the date of one of its month's rows. */
  lemma {:induction false} GroupAttained(rows: seq<Tx>, monthOf: int -> MonthKey)
    ensures forall i :: 0 <= i < |Group(rows, monthOf)| ==> Attained(rows, Group(rows, monthOf)[i], monthOf)
  {
    if rows != [] {
      var rows' := rows[..|rows| - 1];
      var t := rows[|rows| - 1];
      var k := monthOf(t.fecha);
      var g := Group(rows', monthOf);
      var g2 := Group(rows, monthOf);
      GroupAttained(rows', monthOf);
      AddRowShape(g, k, t.monto, t.fecha);
      assert rows == rows' + [t];
      forall i | 0 <= i < |g2|
        ensures Attained(rows, g2[i], monthOf)
      {
        if i < |g| {
          var w :| w in rows' && monthOf(w.fecha) == g[i].mes && w.fecha == g[i].mesOrden;
          assert w in rows;
        } else {
          assert g2[i] == Point(k, t.monto, t.fecha);
          assert t in rows;
        }
      }
    }
  }

  lemma NewestFirstPrefix(rows: seq<Tx>)
    requires NewestFirst(rows) && rows != []
    ensures NewestFirst(rows[..|rows| - 1])
    ensures forall u :: u in rows[..|rows| - 1] ==> u.fecha >= rows[|rows| - 1].fecha
  {
    forall u | u in rows[..|rows| - 1]
      ensures u.fecha >= rows[|rows| - 1].fecha
    {
      var x :| 0 <= x < |rows| - 1 && rows[x] == u;
    }
  }

  /**
   * Because the query returns the newest rows first, the date that opens a
   * month's entry is that month's newest date.
   */
  lemma {:induction false} GroupNewest(rows: seq<Tx>, monthOf: int -> MonthKey)
    requires NewestFirst(rows)
    ensures forall i :: 0 <= i < |Group(rows, monthOf)| ==> NotOlder(rows, Group(rows, monthOf)[i], monthOf)
  {
    if rows != [] {
      var rows' := rows[..|rows| - 1];
      var t := rows[|rows| - 1];
      var k := monthOf(t.fecha);
      var g := Group(rows', monthOf);
      var g2 := Group(rows, monthOf);
      NewestFirstPrefix(rows);
      GroupNewest(rows', monthOf);
      GroupAttained(rows', monthOf);
      AddRowShape(g, k, t.monto, t.fecha);
      assert rows == rows' + [t];
      forall i | 0 <= i < |g2|
        ensures NotOlder(rows, g2[i], monthOf)
      {
        if i < |g| {
          assert NotOlder(rows', g[i], monthOf);
          if k == g[i].mes {
            var w :| w in rows' && monthOf(w.fecha) == g[i].mes && w.fecha == g[i].mesOrden;
          }
        } else {
          GroupMonths(rows', k, monthOf);
          assert g2[i] == Point(k, t.monto, t.fecha);
        }
      }
    }
  }

  /** Newest first by `mesOrden`. */
  predicate NewestOrden(ps: seq<Point>)
  {
    forall i, j :: 0 <= i < j < |ps| ==> ps[i].mesOrden >= ps[j].mesOrden
  }

  /** Places `p` before the first entry that is not newer than it. */
  function Insert(p: Point, s: seq<Point>): (r: seq<Point>)
    ensures multiset(r) == multiset(s) + multiset{p}
    ensures |r| == |s| + 1
  {
    if s == [] || p.mesOrden >= s[0].mesOrden then [p] + s
    else
      assert s == [s[0]] + s[1..];
      [s[0]] + Insert(p, s[1..])
  }

  lemma {:induction false} InsertOrdered(p: Point, s: seq<Point>)
    requires NewestOrden(s)
    ensures NewestOrden(Insert(p, s))
  {
    if s != [] && p.mesOrden < s[0].mesOrden {
      InsertOrdered(p, s[1..]);
      var r := Insert(p, s[1..]);
      forall x | x in r
        ensures x.mesOrden <= s[0].mesOrden
      {
        assert x in multiset(r);
        assert x == p || x in multiset(s[1..]);
      }
    }
  }

  /** `.sort((a, b) => b.mesOrden - a.mesOrden)`, a stable sort. */
  function SortDesc(ps: seq<Point>): seq<Point>
  {
    if ps == [] then [] else Insert(ps[0], SortDesc(ps[1..]))
  }

  /** The sort is a newest-first permutation of its input. */
  lemma {:induction false} SortDescSpec(ps: seq<Point>)
    ensures multiset(SortDesc(ps)) == multiset(ps)
    ensures NewestOrden(SortDesc(ps))
  {
    if ps != [] {
      SortDescSpec(ps[1..]);
      InsertOrdered(ps[0], SortDesc(ps[1..]));
      assert ps == [ps[0]] + ps[1..];
    }
  }

  /** `.slice(0, 4)`. */
  function Recent(s: seq<Point>): (r: seq<Point>)
    ensures |r| == if |s| <= 4 then |s| else 4
    ensures r == s[..|r|]
  {
    if |s| <= 4 then s else s[..4]
  }

  /** `.reverse()`. */
  function Reverse(s: seq<Point>): (r: seq<Point>)
    ensures |r| == |s|
    ensures forall i :: 0 <= i < |s| ==> r[i] == s[|s| - 1 - i]
  {
    if s == [] then [] else Reverse(s[1..]) + [s[0]]
  }

  /** The single zero bar for the current month. */
  function Placeholder(monthOf: int -> MonthKey, now: int): Point
  {
    Point(monthOf(now), 0.0, now)
  }

  /** The bars shown for the query result `rows` (non-empty) grouped by month. */
  function Bars(rows: seq<Tx>, monthOf: int -> MonthKey): seq<Point>
  {
    Reverse(Recent(SortDesc(Group(rows, monthOf))))
  }

  /** What the chart shows after a successful query. */
  function Chart(rows: seq<Tx>, monthOf: int -> MonthKey, now: int): seq<Point>
  {
    if rows == [] then [Placeholder(monthOf, now)] else Bars(rows, monthOf)
  }

  /** Membership in an insertion result. */
  lemma InsertMembers(p: Point, s: seq<Point>)
    ensures forall x :: x in Insert(p, s) <==> x == p || x in s
  {
    forall x
      ensures x in Insert(p, s) <==> x == p || x in s
    {
      assert x in Insert(p, s) <==> x in multiset(Insert(p, s));
    }
  }

  /** Inserting an entry of a month not yet present keeps months distinct. */
  lemma {:induction false} InsertUnique(p: Point, s: seq<Point>)
    requires UniqueMonths(s)
    requires forall q :: q in s ==> q.mes != p.mes
    ensures UniqueMonths(Insert(p, s))
  {
    if s != [] && p.mesOrden < s[0].mesOrden {
      InsertUnique(p, s[1..]);
      InsertMembers(p, s[1..]);
      var r := Insert(p, s[1..]);
      assert Insert(p, s) == [s[0]] + r;
      forall x | x in r
        ensures x.mes != s[0].mes
      {
        if x != p {
          var y :| 0 <= y < |s[1..]| && s[1..][y] == x;
          assert s[y + 1] == x;
        }
      }
    }
  }

  /** Sorting keeps months distinct. */
  lemma {:induction false} SortUnique(ps: seq<Point>)
    requires UniqueMonths(ps)
    ensures UniqueMonths(SortDesc(ps))
  {
    if ps != [] {
      SortUnique(ps[1..]);
      SortDescSpec(ps[1..]);
      forall q | q in SortDesc(ps[1..])
        ensures q.mes != ps[0].mes
      {
        assert q in multiset(SortDesc(ps[1..]));
        var y :| 0 <= y < |ps[1..]| && ps[1..][y] == q;
        assert ps[y + 1] == q;
      }
      InsertUnique(ps[0], SortDesc(ps[1..]));
    }
  }

  /** Reversing the newest four of a newest-first list gives them oldest first. */
  lemma NewestFourAscending(s: seq<Point>)
    requires NewestOrden(s)
    ensures forall i, j :: 0 <= i < j < |Reverse(Recent(s))| ==> Reverse(Recent(s))[i].mesOrden <= Reverse(Recent(s))[j].mesOrden
  {
  }

  lemma NewestFourMembers(s: seq<Point>)
    ensures forall q :: q in Reverse(Recent(s)) <==> q in Recent(s)
    ensures forall q :: q in Recent(s) ==> q in s
  {
    var t := Recent(s);
    var b := Reverse(t);
    forall q | q in b
      ensures q in t
    {
      var i :| 0 <= i < |b| && b[i] == q;
      assert q == t[|t| - 1 - i];
    }
    forall q | q in t
      ensures q in b
    {
      var i :| 0 <= i < |t| && t[i] == q;
      assert q == b[|t| - 1 - i];
    }
  }

  /** No entry left out of the newest four is newer than one kept. */
  lemma NewestFourKept(s: seq<Point>)
    requires NewestOrden(s)
    ensures forall p, q :: p in s && p !in Reverse(Recent(s)) && q in Reverse(Recent(s)) ==> p.mesOrden <= q.mesOrden
  {
    var t := Recent(s);
    NewestFourMembers(s);
    forall p, q | p in s && p !in Reverse(t) && q in Reverse(t)
      ensures p.mesOrden <= q.mesOrden
    {
      var x :| 0 <= x < |s| && s[x] == p;
      assert p !in t;
      var y :| 0 <= y < |t| && t[y] == q;
    }
  }

  lemma NewestFourUnique(s: seq<Point>)
    requires UniqueMonths(s)
    ensures UniqueMonths(Reverse(Recent(s)))
  {
    var t := Recent(s);
    var b := Reverse(t);
    forall i, j | 0 <= i < j < |b|
      ensures b[i].mes != b[j].mes
    {
      assert b[i] == s[|t| - 1 - i] && b[j] == s[|t| - 1 - j];
    }
  }

  /** Between one and four bars; four exactly when there are at least four months. */
  lemma BarsCount(rows: seq<Tx>, monthOf: int -> MonthKey)
    requires rows != []
    ensures 1 <= |Bars(rows, monthOf)| <= 4
    ensures |Bars(rows, monthOf)| == if |Group(rows, monthOf)| <= 4 then |Group(rows, monthOf)| else 4
  {
    var g := Group(rows, monthOf);
    SortDescSpec(g);
    GroupMonths(rows, monthOf(rows[0].fecha), monthOf);
    assert rows[0] in rows;
    assert |SortDesc(g)| == |g| by { assert |multiset(SortDesc(g))| == |multiset(g)|; }
  }

  /**
   * The bars: oldest first, each a month's entry, no month twice, and no
   * month left out that is newer than one shown.
   */
  lemma BarsSpec(rows: seq<Tx>, monthOf: int -> MonthKey)
    ensures forall i, j :: 0 <= i < j < |Bars(rows, monthOf)| ==> Bars(rows, monthOf)[i].mesOrden <= Bars(rows, monthOf)[j].mesOrden
    ensures forall q :: q in Bars(rows, monthOf) ==> q in Group(rows, monthOf)
    ensures forall p, q :: p in Group(rows, monthOf) && p !in Bars(rows, monthOf) && q in Bars(rows, monthOf) ==> p.mesOrden <= q.mesOrden
    ensures UniqueMonths(Bars(rows, monthOf))
  {
    var g := Group(rows, monthOf);
    var s := SortDesc(g);
    SortDescSpec(g);
    GroupUnique(rows, monthOf);
    SortUnique(g);
    NewestFourAscending(s);
    NewestFourMembers(s);
    NewestFourKept(s);
    NewestFourUnique(s);
    forall q | q in s
      ensures q in g
    {
      assert q in multiset(s);
    }
    forall p | p in g
      ensures p in s
    {
      assert p in multiset(g);
    }
  }

  /** The bars of a month are that month's sum, dated by its newest row. */
  lemma BarsValues(rows: seq<Tx>, monthOf: int -> MonthKey)
    requires NewestFirst(rows)
    ensures forall q :: q in Bars(rows, monthOf) ==>
      q.ganancia == MonthSum(rows, q.mes, monthOf) && NotOlder(rows, q, monthOf) && Attained(rows, q, monthOf)
  {
    BarsSpec(rows, monthOf);
    GroupSums(rows, monthOf);
    GroupNewest(rows, monthOf);
    GroupAttained(rows, monthOf);
  }

  lemma {:induction false} TotalAppend(a: seq<Point>, b: seq<Point>)
    ensures TotalGanancias(a + b) == TotalGanancias(a) + TotalGanancias(b)
  {
    if b != [] {
      assert (a + b)[..|a + b| - 1] == a + b[..|b| - 1];
      TotalAppend(a, b[..|b| - 1]);
    } else {
      assert a + b == a;
    }
  }

  /** The total does not depend on the order of the bars. */
  lemma {:induction false} TotalReorder(a: seq<Point>, b: seq<Point>)
    requires multiset(a) == multiset(b)
    ensures TotalGanancias(a) == TotalGanancias(b)
    decreases |a|
  {
    if a != [] {
      var x := a[|a| - 1];
      var a' := a[..|a| - 1];
      assert a == a' + [x];
      assert x in multiset(b);
      var i :| 0 <= i < |b| && b[i] == x;
      var b' := b[..i] + b[i + 1..];
      assert b == b[..i] + [x] + b[i + 1..];
      assert multiset(b) == multiset(b[..i]) + multiset{x} + multiset(b[i + 1..]);
      assert multiset(a) == multiset(a') + multiset{x};
      assert multiset(b') == multiset(b[..i]) + multiset(b[i + 1..]);
      assert multiset(a') == multiset(a) - multiset{x};
      assert multiset(b') == multiset(b) - multiset{x};
      TotalReorder(a', b');
      TotalAppend(b[..i] + [x], b[i + 1..]);
      TotalAppend(b[..i], [x]);
      TotalAppend(b[..i], b[i + 1..]);
      assert TotalGanancias([x]) == x.ganancia by { assert [x][..0] == []; }
    } else {
      assert |b| == |multiset(b)| == 0;
    }
  }

  lemma {:induction false} ReverseMultiset(s: seq<Point>)
    ensures multiset(Reverse(s)) == multiset(s)
  {
    if s != [] {
      ReverseMultiset(s[1..]);
      assert s == [s[0]] + s[1..];
    }
  }

  /**
   * With at most four months nothing is cut, so the chart's total is the
   * sum of every gain row.
   */
  lemma FewMonthsKeepEverything(rows: seq<Tx>, monthOf: int -> MonthKey)
    requires |Group(rows, monthOf)| <= 4
    ensures TotalGanancias(Bars(rows, monthOf)) == RowsSum(rows)
  {
    var g := Group(rows, monthOf);
    var s := SortDesc(g);
    SortDescSpec(g);
    assert |s| == |g| by { assert |multiset(s)| == |multiset(g)|; }
    ReverseMultiset(s);
    TotalReorder(Bars(rows, monthOf), s);
    TotalReorder(s, g);
    GroupTotal(rows, monthOf);
  }

  /** `chartData.some(item => item.ganancia > 0)`. */
  function HasRealGanancias(ps: seq<Point>): (r: bool)
    ensures r <==> exists i :: 0 <= i < |ps| && ps[i].ganancia > 0.0
  {
    if ps == [] then false
    else
      assert forall i :: 0 <= i < |ps| - 1 ==> ps[..|ps| - 1][i] == ps[i];
      HasRealGanancias(ps[..|ps| - 1]) || ps[|ps| - 1].ganancia > 0.0
  }

  /** The `forEach` over the query rows, filling the month map. */
  method GroupByMonth(rows: seq<Tx>, monthOf: int -> MonthKey) returns (entries: seq<Point>)
    ensures entries == Group(rows, monthOf)
  {
    entries := [];
    var i := 0;
    while i < |rows|
      invariant 0 <= i <= |rows|
      invariant entries == Group(rows[..i], monthOf)
    {
      var t := rows[i];
      var key := monthOf(t.fecha);
      assert rows[..i + 1][..i] == rows[..i];
      ghost var before := entries;
      if IndexOf(entries, key).None? {
        entries := entries + [Point(key, 0.0, t.fecha)];
      }
      var j := IndexOf(entries, key).value;
      entries := entries[j := entries[j].(ganancia := entries[j].ganancia + t.monto)];
      assert entries == AddRow(before, key, t.monto, t.fecha);
      i := i + 1;
    }
    assert rows[..|rows|] == rows;
  }

  /**
   * `fetchMonthlyData`: `rows` is what the query returns, the investor's
   * "ganancia" rows newest first. A failed query or no rows shows the zero
   * bar of the current month; otherwise at most four bars, oldest first,
   * one per month, each the month's sum, and no omitted month newer than
   * a shown one.
   */
  method FetchMonthlyData(db: Database, user: Id, rows: seq<Tx>, monthOf: int -> MonthKey, now: int, queryFails: bool)
    returns (chartData: seq<Point>)
    requires multiset(rows) == multiset(GainRowsOf(db.transacciones, user))
    requires NewestFirst(rows)
    ensures queryFails ==> chartData == [Placeholder(monthOf, now)]
    ensures !queryFails ==> chartData == Chart(rows, monthOf, now)
    ensures GainRowsOf(db.transacciones, user) == [] ==> chartData == [Placeholder(monthOf, now)]
    ensures 1 <= |chartData| <= 4
    ensures forall i, j :: 0 <= i < j < |chartData| ==> chartData[i].mesOrden <= chartData[j].mesOrden
    ensures UniqueMonths(chartData)
    ensures !queryFails && rows != [] ==> forall q :: q in chartData ==>
      q.ganancia == MonthSum(rows, q.mes, monthOf) && NotOlder(rows, q, monthOf)
    ensures !queryFails && rows != [] ==> forall p, q :: p in Group(rows, monthOf) && p !in chartData && q in chartData ==> p.mesOrden <= q.mesOrden
  {
    if queryFails || |rows| == 0 {
      chartData := [Placeholder(monthOf, now)];
      if GainRowsOf(db.transacciones, user) != [] {
        assert |multiset(rows)| > 0;
      }
      return;
    }
    var entries := GroupByMonth(rows, monthOf);
    var sorted := SortDesc(entries);
    chartData := Reverse(Recent(sorted));
    BarsCount(rows, monthOf);
    BarsSpec(rows, monthOf);
    BarsValues(rows, monthOf);
  }
}
