/**
 The debtor selection of the daily settle-up reminder: the balance object
 of a group read with `Object.entries`, kept where the balance is below
 -100 cents (owes more than one dollar), each entry turned into a
 `{ userId, balance }` record. A group with no such member gets no reminder.
 */
module Reminders {

  import opened JsNumber
  import opened JsObject
  import opened Balances
  import opened BalanceLaws

  /** A balance must be strictly below this to be flagged. */
  const Threshold: int := -100

  /** `{ userId, balance }` */
  datatype Debtor = Debtor(userId: UserId, balance: int)

  /** `balance < -100`; a `NaN` balance compares false. */
  predicate Owes(balance: Num)
  {
    Below(balance, Threshold)
  }

  /** `Object.entries(balances)`: the key/value pairs in key order. */
  function Entries(d: Dict): (r: seq<(Key, Num)>)
    ensures |r| == |d.keys|
    ensures Valid(d) ==> forall i :: 0 <= i < |r| ==> r[i].0 in d.values && r[i] == (d.keys[i], d.values[r[i].0])
  {
    seq(|d.keys|, i requires 0 <= i < |d.keys| => (d.keys[i], Get(d, d.keys[i])))
  }

  /** `.filter(([userId, balance]) => balance < -100).map(([userId, balance]) => ({ userId, balance }))`:
      every entry that owes, in order, and nothing else. */
  function Debtors(entries: seq<(Key, Num)>): (r: seq<Debtor>)
    ensures |r| <= |entries|
    ensures forall d :: d in r ==> d.balance < Threshold && (d.userId, Cents(d.balance)) in entries
    ensures forall p :: p in entries && Owes(p.1) ==> Debtor(p.0, p.1.value) in r
  {
    if |entries| == 0 then []
    else
      var last := entries[|entries| - 1];
      var rest := Debtors(entries[..|entries| - 1]);
      if Owes(last.1) then rest + [Debtor(last.0, last.1.value)] else rest
  }

  /** The `debtors` list the reminder job builds from a balance object. */
  function SelectDebtors(balances: Dict): (r: seq<Debtor>)
    ensures |r| <= |balances.keys|
    ensures forall x :: x in r ==> x.balance < Threshold
  {
    Debtors(Entries(balances))
  }

  /** `if (debtors.length === 0) continue;`: a group is reminded only when
      someone owes. */
  function ShouldRemind(balances: Dict): (r: bool)
    ensures r <==> exists x :: x in SelectDebtors(balances)
  {
    var debtors := SelectDebtors(balances);
    assert |debtors| != 0 ==> debtors[0] in debtors;
    |debtors| != 0
  }

  // ---------------------------------------------------------------------
  // Laws

  /** An entry of `Object.entries` is a listed key with its value. */
  lemma InEntries(d: Dict, p: (Key, Num))
    ensures p in Entries(d) <==> p.0 in d.keys && p.1 == Get(d, p.0)
  {
    if p.0 in d.keys && p.1 == Get(d, p.0) {
      var i :| 0 <= i < |d.keys| && d.keys[i] == p.0;
      assert Entries(d)[i] == p;
    }
  }

  /** The filter keeps the order of the entries: selecting from a joined
      list is joining the selections. */
  lemma {:induction false} DebtorsAppend(a: seq<(Key, Num)>, b: seq<(Key, Num)>)
    ensures Debtors(a + b) == Debtors(a) + Debtors(b)
  {
    if |b| == 0 {
      assert a + b == a;
    } else {
      assert (a + b)[..|a + b| - 1] == a + b[..|b| - 1];
      DebtorsAppend(a, b[..|b| - 1]);
    }
  }

  /** A member is flagged exactly when the object holds a balance for them
      that is below the threshold, and is flagged with that balance. */
  lemma FlaggedExactly(balances: Dict, u: UserId)
    requires Valid(balances)
    ensures (exists v :: Debtor(u, v) in SelectDebtors(balances))
      <==> u in balances.values && Owes(balances.values[u])
    ensures forall v :: Debtor(u, v) in SelectDebtors(balances) ==> balances.values[u] == Cents(v)
  {
    InKeySet(balances.keys, u);
    forall v | Debtor(u, v) in SelectDebtors(balances)
      ensures balances.values[u] == Cents(v)
    {
      InEntries(balances, (u, Cents(v)));
    }
    if u in balances.values && Owes(balances.values[u]) {
      InEntries(balances, (u, balances.values[u]));
      assert Debtor(u, balances.values[u].value) in SelectDebtors(balances);
    }
  }

  /** Each flagged member is flagged once. */
  lemma {:induction false} DebtorsOnce(entries: seq<(Key, Num)>, i: int, j: int)
    requires forall a, b :: 0 <= a < b < |entries| ==> entries[a].0 != entries[b].0
    requires 0 <= i < j < |Debtors(entries)|
    ensures Debtors(entries)[i].userId != Debtors(entries)[j].userId
  {
    var init := entries[..|entries| - 1];
    var last := entries[|entries| - 1];
    if j < |Debtors(init)| {
      DebtorsOnce(init, i, j);
    } else {
      assert Debtors(entries)[j] == Debtor(last.0, last.1.value);
      assert Debtors(entries)[i] in Debtors(init);
      assert (Debtors(entries)[i].userId, Cents(Debtors(entries)[i].balance)) in init;
    }
  }

  /** No member of a balance object is flagged twice. */
  lemma FlaggedOnce(balances: Dict, i: int, j: int)
    requires Valid(balances)
    requires 0 <= i < j < |SelectDebtors(balances)|
    ensures SelectDebtors(balances)[i].userId != SelectDebtors(balances)[j].userId
  {
    var entries := Entries(balances);
    forall a, b | 0 <= a < b < |entries|
      ensures entries[a].0 != entries[b].0
    {
      DistinctAt(balances.keys, a, b);
    }
    DebtorsOnce(entries, i, j);
  }

  /** A reminder goes out exactly when some member's balance is below the
      threshold. */
  lemma RemindExactly(balances: Dict)
    requires Valid(balances)
    ensures ShouldRemind(balances) <==> exists u :: u in balances.values && Owes(balances.values[u])
  {
    var r := SelectDebtors(balances);
    if |r| != 0 {
      FlaggedExactly(balances, r[0].userId);
      assert Debtor(r[0].userId, r[0].balance) in r;
    }
    if exists u :: u in balances.values && Owes(balances.values[u]) {
      var u :| u in balances.values && Owes(balances.values[u]);
      FlaggedExactly(balances, u);
    }
  }

  // ---------------------------------------------------------------------
  // Debtors of computed balances

  /** An ID is flagged exactly when it is on the roster and the sum of
      what the expenses add to its balance is below -100, and it is flagged
      with that sum. An ID off the roster is never flagged: its balance is
      `NaN`, and `NaN < -100` is false. */
  lemma FlaggedIff(expenses: seq<Expense>, memberUserIds: seq<UserId>, u: UserId)
    ensures (exists v :: Debtor(u, v) in SelectDebtors(ComputeBalances(expenses, memberUserIds)))
      <==> u in memberUserIds && SumDelta(expenses, u) < Threshold
    ensures forall v :: Debtor(u, v) in SelectDebtors(ComputeBalances(expenses, memberUserIds)) ==>
      v == SumDelta(expenses, u)
  {
    FlaggedExactly(ComputeBalances(expenses, memberUserIds), u);
    ComputeBalancesNaN(expenses, memberUserIds, u);
    if u in memberUserIds {
      ComputeBalancesAt(expenses, memberUserIds, u);
    }
  }

  /** The threshold is strict: a balance of exactly -100 is not flagged, a
      balance of -101 is. */
  lemma ThresholdIsStrict(balances: Dict, u: UserId)
    requires Valid(balances) && u in balances.values
    ensures balances.values[u] == Cents(-100) ==> forall v :: Debtor(u, v) !in SelectDebtors(balances)
    ensures balances.values[u] == Cents(-101) ==> Debtor(u, -101) in SelectDebtors(balances)
  {
    FlaggedExactly(balances, u);
  }

}
