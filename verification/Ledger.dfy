/**
 * The temporal ledger: rows of `transacciones_temporal` and the balance fold
 * that five components repeat (deposito and ganancia add, retiro subtracts,
 * any other type is skipped, matching is case-insensitive, the result is
 * clamped at zero).
 */
module Ledger {
  import opened Text

  type Id = string

  /** One ledger row. `inversorId` is nullable in the table. */
  datatype Tx = Tx(inversorId: Option<Id>, monto: real, tipo: string, descripcion: string, fecha: int)

  datatype Kind = Deposit | Withdrawal | Gain | Other

  /** The `switch (tipo.toLowerCase())` of the fold. */
  function KindOf(tipo: string): Kind
  {
    var t := ToLower(tipo);
    if t == "deposito" then Deposit
    else if t == "retiro" then Withdrawal
    else if t == "ganancia" then Gain
    else Other
  }

  /** What one row does to the running balance. */
  function Effect(t: Tx): real
  {
    match KindOf(t.tipo)
    case Deposit => t.monto
    case Withdrawal => -t.monto
    case Gain => t.monto
    case Other => 0.0
  }

  /** The unclamped running balance after every row, in table order. */
  function SignedSum(txs: seq<Tx>): real
  {
    if txs == [] then 0.0 else SignedSum(txs[..|txs| - 1]) + Effect(txs[|txs| - 1])
  }

  function Max0(x: real): (r: real)
    ensures r >= 0.0 && r >= x && (r == x || r == 0.0)
  {
    if x > 0.0 then x else 0.0
  }

  /** `Math.max(0, saldo)` after the fold. */
  function Balance(txs: seq<Tx>): (r: real)
    ensures r >= 0.0
  {
    Max0(SignedSum(txs))
  }

  /** Sum of the amounts of the rows of one kind. */
  function KindSum(txs: seq<Tx>, k: Kind): real
  {
    if txs == [] then 0.0
    else KindSum(txs[..|txs| - 1], k) + (if KindOf(txs[|txs| - 1].tipo) == k then txs[|txs| - 1].monto else 0.0)
  }

  /** A string without upper-case ASCII letters is its own lower-cased form. */
  lemma ToLowerOfLower(s: string)
    requires forall i :: 0 <= i < |s| ==> !('A' <= s[i] <= 'Z')
    ensures ToLower(s) == s
  {
  }

  /** The three recognised types, written in lower case, are recognised. */
  lemma KnownKinds()
    ensures KindOf("deposito") == Deposit && KindOf("retiro") == Withdrawal && KindOf("ganancia") == Gain
  {
    ToLowerOfLower("deposito");
    ToLowerOfLower("retiro");
    ToLowerOfLower("ganancia");
  }

  /** Type matching ignores case: a type and its lower-cased form have the same kind. */
  lemma KindIgnoresCase(tipo: string)
    ensures KindOf(ToLower(tipo)) == KindOf(tipo)
  {
    ToLowerIdempotent(tipo);
  }

  /** The balance of a concatenation is the sum of the balances of the parts. */
  lemma {:induction false} SignedSumAppend(a: seq<Tx>, b: seq<Tx>)
    ensures SignedSum(a + b) == SignedSum(a) + SignedSum(b)
  {
    if b == [] {
      assert a + b == a;
    } else {
      var b' := b[..|b| - 1];
      assert (a + b)[..|a + b| - 1] == a + b';
      SignedSumAppend(a, b');
    }
  }

  /** Reordering the rows does not change the signed sum. */
  lemma {:induction false} SignedSumReorder(a: seq<Tx>, b: seq<Tx>)
    requires multiset(a) == multiset(b)
    ensures SignedSum(a) == SignedSum(b)
    decreases |a|
  {
    if a != [] {
      var x := a[|a| - 1];
      var a' := a[..|a| - 1];
      assert a == a' + [x];
      assert x in multiset(b);
      var i :| 0 <= i < |b| && b[i] == x;
      var b' := b[..i] + b[i + 1..];
      assert b == b[..i] + [x] + b[i + 1..];
      assert multiset(b) == multiset(b[..i]) + multiset{x} + multiset(b[i + 1..]);
      assert multiset(a) == multiset(a') + multiset{x};
      assert multiset(b') == multiset(b[..i]) + multiset(b[i + 1..]);
      assert multiset(a') == multiset(a) - multiset{x};
      assert multiset(b') == multiset(b) - multiset{x};
      SignedSumReorder(a', b');
      SignedSumAppend(b[..i] + [x], b[i + 1..]);
      SignedSumAppend(b[..i], [x]);
      SignedSumAppend(b[..i], b[i + 1..]);
      assert SignedSum([x]) == Effect(x) by { assert [x][..0] == []; }
    } else {
      assert |b| == |multiset(b)| == 0;
    }
  }

  /** Hence the clamped balance is independent of row order. */
  lemma BalanceReorder(a: seq<Tx>, b: seq<Tx>)
    requires multiset(a) == multiset(b)
    ensures Balance(a) == Balance(b)
  {
    SignedSumReorder(a, b);
  }

  /** The balance is the clamped signed sum of the three category totals. */
  lemma {:induction false} SignedSumByKind(txs: seq<Tx>)
    ensures SignedSum(txs) == KindSum(txs, Deposit) - KindSum(txs, Withdrawal) + KindSum(txs, Gain)
  {
    if txs != [] {
      SignedSumByKind(txs[..|txs| - 1]);
    }
  }

  /** Rows of an unrecognised type never contribute. */
  function Recognised(txs: seq<Tx>): (r: seq<Tx>)
    ensures forall t :: t in r ==> t in txs && KindOf(t.tipo) != Other
    ensures forall t :: t in txs && KindOf(t.tipo) != Other ==> t in r
  {
    if txs == [] then []
    else
      var r := Recognised(txs[..|txs| - 1]);
      var t := txs[|txs| - 1];
      assert forall u :: u in txs <==> u in txs[..|txs| - 1] || u == t by {
        assert txs == txs[..|txs| - 1] + [t];
      }
      if KindOf(t.tipo) != Other then r + [t] else r
  }

  lemma {:induction false} UnknownTypesIgnored(txs: seq<Tx>)
    ensures SignedSum(Recognised(txs)) == SignedSum(txs)
  {
    if txs != [] {
      var t := txs[|txs| - 1];
      UnknownTypesIgnored(txs[..|txs| - 1]);
      if KindOf(t.tipo) != Other {
        SignedSumAppend(Recognised(txs[..|txs| - 1]), [t]);
        assert [t][..0] == [];
      }
    }
  }

  /** The `forEach` accumulation followed by `Math.max(0, ·)`. */
  method AccumulateBalance(txs: seq<Tx>) returns (saldo: real)
    ensures saldo == Balance(txs)
    ensures saldo >= 0.0 && saldo >= SignedSum(txs)
    ensures txs == [] ==> saldo == 0.0
  {
    var total := 0.0;
    var i := 0;
    while i < |txs|
      invariant 0 <= i <= |txs|
      invariant total == SignedSum(txs[..i])
    {
      var t := txs[i];
      var k := KindOf(t.tipo);
      if k == Deposit {
        total := total + t.monto;
      } else if k == Withdrawal {
        total := total - t.monto;
      } else if k == Gain {
        total := total + t.monto;
      }
      assert txs[..i + 1][..i] == txs[..i];
      i := i + 1;
    }
    assert txs[..i] == txs;
    saldo := if total > 0.0 then total else 0.0;
  }

  /** The rows of one investor (`.eq('inversor_id', id)`), in table order. */
  function RowsOf(txs: seq<Tx>, id: Id): (r: seq<Tx>)
    ensures forall t :: t in r <==> t in txs && t.inversorId == Some(id)
    ensures |r| <= |txs|
  {
    if txs == [] then []
    else
      var t := txs[|txs| - 1];
      var r := RowsOf(txs[..|txs| - 1], id);
      assert forall u :: u in txs <==> u in txs[..|txs| - 1] || u == t by {
        assert txs == txs[..|txs| - 1] + [t];
      }
      if t.inversorId == Some(id) then r + [t] else r
  }

  /** Selecting one investor's rows commutes with appending rows to the table. */
  lemma {:induction false} RowsOfAppend(a: seq<Tx>, b: seq<Tx>, id: Id)
    ensures RowsOf(a + b, id) == RowsOf(a, id) + RowsOf(b, id)
  {
    if b == [] {
      assert a + b == a;
    } else {
      var b' := b[..|b| - 1];
      assert (a + b)[..|a + b| - 1] == a + b';
      RowsOfAppend(a, b', id);
    }
  }

  /** The non-null `inversor_id` values, in row order. */
  function InvestorIds(txs: seq<Tx>): (r: seq<Id>)
    ensures forall x :: x in r <==> exists t :: t in txs && t.inversorId == Some(x)
  {
    if txs == [] then []
    else
      var t := txs[|txs| - 1];
      var r := InvestorIds(txs[..|txs| - 1]);
      assert forall u :: u in txs <==> u in txs[..|txs| - 1] || u == t by {
        assert txs == txs[..|txs| - 1] + [t];
      }
      if t.inversorId.Some? then r + [t.inversorId.value] else r
  }

  /** The set of non-null investor ids (`new Set(...)`). */
  function InvestorIdSet(txs: seq<Tx>): set<Id>
  {
    set x | x in InvestorIds(txs)
  }

  predicate NoDuplicates(s: seq<Id>)
  {
    forall i, j :: 0 <= i < j < |s| ==> s[i] != s[j]
  }

  /** `[...new Set(ids)]`: each value once, in order of first occurrence. */
  function Distinct(s: seq<Id>): (r: seq<Id>)
    ensures NoDuplicates(r)
    ensures forall x :: x in r <==> x in s
    ensures |r| <= |s|
  {
    if s == [] then []
    else
      var r := Distinct(s[..|s| - 1]);
      var x := s[|s| - 1];
      assert forall u :: u in s <==> u in s[..|s| - 1] || u == x by {
        assert s == s[..|s| - 1] + [x];
      }
      if x in r then r else r + [x]
  }

  /** Values keep the order of their first occurrence: later values only extend the result. */
  lemma {:induction false} DistinctFirstSeen(a: seq<Id>, b: seq<Id>)
    ensures Distinct(a) <= Distinct(a + b)
  {
    if b != [] {
      var b' := b[..|b| - 1];
      assert (a + b)[..|a + b| - 1] == a + b';
      DistinctFirstSeen(a, b');
    } else {
      assert a + b == a;
    }
  }

  /** A sequence without duplicates has as many elements as its set. */
  lemma {:induction false} NoDuplicatesCard(s: seq<Id>)
    requires NoDuplicates(s)
    ensures |set x | x in s| == |s|
  {
    if s != [] {
      var s' := s[..|s| - 1];
      var x := s[|s| - 1];
      assert s == s' + [x];
      NoDuplicatesCard(s');
      assert x !in s';
      assert (set y | y in s) == (set y | y in s') + {x};
    }
  }

  /** The number of distinct recipients is the size of the id set. */
  lemma DistinctInvestorCount(txs: seq<Tx>)
    ensures |Distinct(InvestorIds(txs))| == |InvestorIdSet(txs)|
  {
    var d := Distinct(InvestorIds(txs));
    NoDuplicatesCard(d);
    assert (set x | x in d) == InvestorIdSet(txs);
  }
}
