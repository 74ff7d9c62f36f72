/**
 `computeBalances`: a group's expenses folded over its member roster into a
 balance object from member ID to signed cents (positive: is owed money,
 negative: owes money). Every roster member starts at 0; each expense credits
 its payer the full amount and debits every entry of its split list the floor
 of the amount divided by the split list's length. The floor remainder is
 credited to nobody.
 */
module Balances {

  import opened JsNumber
  import opened JsObject

  type UserId = Key

  /** One expense record. `splitUserIds` is a list: a repeated ID counts
      toward the divisor and is debited once per occurrence. */
  datatype Expense = Expense(paidByUserId: UserId, amountCents: int, splitUserIds: seq<UserId>)

  /** `Math.floor(amountCents / splitUserIds.length)`. With an empty split
      list the JavaScript value is `Infinity` or `NaN`, but then no debit
      uses it, so 0 stands in for it. */
  function AmountPerPerson(e: Expense): (share: int)
    ensures |e.splitUserIds| > 0 ==>
      share * |e.splitUserIds| <= e.amountCents < share * |e.splitUserIds| + |e.splitUserIds|
  {
    if |e.splitUserIds| == 0 then 0 else e.amountCents / |e.splitUserIds|
  }

  /** The IDs an expense touches: its payer and its split list. */
  function Involved(e: Expense): set<UserId>
  {
    {e.paidByUserId} + KeySet(e.splitUserIds)
  }

  /** The IDs any of the expenses touches. */
  function Participants(expenses: seq<Expense>): set<UserId>
  {
    if |expenses| == 0 then {}
    else Participants(expenses[..|expenses| - 1]) + Involved(expenses[|expenses| - 1])
  }

  /** The initialisation loop: `balances[userId] = 0` for each roster entry in turn. */
  function InitBalances(memberUserIds: seq<UserId>): (b: Dict)
    ensures Valid(b)
    ensures forall u :: u in b.values <==> u in memberUserIds
    ensures forall u :: u in b.values ==> b.values[u] == Cents(0)
  {
    if |memberUserIds| == 0 then Empty
    else
      var last := |memberUserIds| - 1;
      Set(InitBalances(memberUserIds[..last]), memberUserIds[last], Cents(0))
  }

  /** The debit loop: `balances[userId] -= share` for each split entry in turn. */
  function DebitAll(b: Dict, splitUserIds: seq<UserId>, share: int): (r: Dict)
    ensures Valid(b) ==> Valid(r)
    ensures r.values.Keys == b.values.Keys + KeySet(splitUserIds)
  {
    if |splitUserIds| == 0 then b
    else
      var last := |splitUserIds| - 1;
      AddTo(DebitAll(b, splitUserIds[..last], share), splitUserIds[last], -share)
  }

  /** The body of the expense loop: credit the payer the full amount, then
      debit every split entry the per-person share. */
  function ApplyExpense(b: Dict, e: Expense): (r: Dict)
    ensures Valid(b) ==> Valid(r)
  {
    var credited := AddTo(b, e.paidByUserId, e.amountCents);
    DebitAll(credited, e.splitUserIds, AmountPerPerson(e))
  }

  /** The expense loop: the expenses applied in the order given. */
  function ApplyAll(b: Dict, expenses: seq<Expense>): (r: Dict)
    ensures Valid(b) ==> Valid(r)
  {
    if |expenses| == 0 then b
    else
      var last := |expenses| - 1;
      ApplyExpense(ApplyAll(b, expenses[..last]), expenses[last])
  }

  /** `computeBalances(expenses, memberUserIds)`. Its keys are the roster
      plus any ID an expense names that the roster lacks. */
  function ComputeBalances(expenses: seq<Expense>, memberUserIds: seq<UserId>): (r: Dict)
    ensures Valid(r)
    ensures forall u :: u in r.values <==> u in memberUserIds || u in Participants(expenses)
  {
    ApplyAllDomain(InitBalances(memberUserIds), expenses);
    ApplyAll(InitBalances(memberUserIds), expenses)
  }

  /** With no expenses the result holds exactly the roster, all at 0. */
  lemma NoExpenses(memberUserIds: seq<UserId>)
    ensures forall u :: u in ComputeBalances([], memberUserIds).values <==> u in memberUserIds
    ensures forall u :: u in ComputeBalances([], memberUserIds).values ==>
      ComputeBalances([], memberUserIds).values[u] == Cents(0)
  {
  }

  lemma ExpenseDomain(b: Dict, e: Expense)
    ensures ApplyExpense(b, e).values.Keys == b.values.Keys + Involved(e)
  {
  }

  lemma {:induction false} ApplyAllDomain(b: Dict, expenses: seq<Expense>)
    ensures ApplyAll(b, expenses).values.Keys == b.values.Keys + Participants(expenses)
  {
    if |expenses| > 0 {
      var last := |expenses| - 1;
      ApplyAllDomain(b, expenses[..last]);
      ExpenseDomain(ApplyAll(b, expenses[..last]), expenses[last]);
    }
  }

  /** The loops of `computeBalances` as written, each tied to the fold it
      computes. */
  method ComputeBalancesLoop(expenses: seq<Expense>, memberUserIds: seq<UserId>) returns (balances: Dict)
    ensures balances == ComputeBalances(expenses, memberUserIds)
  {
    balances := Empty;
    for i := 0 to |memberUserIds|
      invariant balances == InitBalances(memberUserIds[..i])
    {
      assert memberUserIds[..i + 1][..i] == memberUserIds[..i];
      balances := Set(balances, memberUserIds[i], Cents(0));
    }
    assert memberUserIds[..|memberUserIds|] == memberUserIds;
    ghost var initial := balances;

    for i := 0 to |expenses|
      invariant balances == ApplyAll(initial, expenses[..i])
    {
      ApplyOneMore(initial, expenses, i);
      balances := ApplyExpenseLoop(balances, expenses[i]);
    }
    assert expenses[..|expenses|] == expenses;
  }

  /** The expense loop over one more expense is one more expense applied. */
  lemma ApplyOneMore(b: Dict, expenses: seq<Expense>, i: int)
    requires 0 <= i < |expenses|
    ensures ApplyAll(b, expenses[..i + 1]) == ApplyExpense(ApplyAll(b, expenses[..i]), expenses[i])
  {
    assert expenses[..i + 1][..i] == expenses[..i];
  }

  /** One pass of the expense loop as written: compute the share, credit the
      payer, then run the debit loop. */
  method ApplyExpenseLoop(b: Dict, expense: Expense) returns (balances: Dict)
    ensures balances == ApplyExpense(b, expense)
  {
    var amountPerPerson := AmountPerPerson(expense);
    balances := AddTo(b, expense.paidByUserId, expense.amountCents);
    balances := DebitLoop(balances, expense.splitUserIds, amountPerPerson);
  }

  /** The debit loop as written. */
  method DebitLoop(b: Dict, splitUserIds: seq<UserId>, amountPerPerson: int) returns (balances: Dict)
    ensures balances == DebitAll(b, splitUserIds, amountPerPerson)
  {
    balances := b;
    for j := 0 to |splitUserIds|
      invariant balances == DebitAll(b, splitUserIds[..j], amountPerPerson)
    {
      DebitOneMore(b, splitUserIds, amountPerPerson, j);
      balances := AddTo(balances, splitUserIds[j], -amountPerPerson);
    }
    assert splitUserIds[..|splitUserIds|] == splitUserIds;
  }

  /** The debit loop over one more entry is one more debit. */
  lemma DebitOneMore(b: Dict, splitUserIds: seq<UserId>, share: int, j: int)
    requires 0 <= j < |splitUserIds|
    ensures DebitAll(b, splitUserIds[..j + 1], share)
      == AddTo(DebitAll(b, splitUserIds[..j], share), splitUserIds[j], -share)
  {
    assert splitUserIds[..j + 1][..j] == splitUserIds[..j];
  }

}
