/**
 What `computeBalances` promises, stated against an independent closed form:
 a roster member's balance is the sum, over all expenses, of what each
 expense adds to it (the full amount if they paid, minus the share once per
 occurrence in the split list). From that follow the per-expense deltas,
 order independence, which keys end up `NaN`, and the group total (the sum of
 the floor remainders, which nobody is credited).
 */
module BalanceLaws {

  import opened JsNumber
  import opened JsObject
  import opened Balances

  /** What one expense adds to the balance of `u`. */
  function Delta(e: Expense, u: UserId): int
  {
    (if u == e.paidByUserId then e.amountCents else 0)
      - AmountPerPerson(e) * multiset(e.splitUserIds)[u]
  }

  /** What a list of expenses adds to the balance of `u`. */
  function SumDelta(expenses: seq<Expense>, u: UserId): int
  {
    if |expenses| == 0 then 0
    else SumDelta(expenses[..|expenses| - 1], u) + Delta(expenses[|expenses| - 1], u)
  }

  /** What one expense adds to the group total: credited minus debited. */
  function Leak(e: Expense): int
  {
    e.amountCents - AmountPerPerson(e) * |e.splitUserIds|
  }

  /** What a list of expenses adds to the group total. */
  function SumLeak(expenses: seq<Expense>): int
  {
    if |expenses| == 0 then 0
    else SumLeak(expenses[..|expenses| - 1]) + Leak(expenses[|expenses| - 1])
  }

  lemma MulSucc(a: int, k: int)
    ensures a * (k + 1) == a * k + a
  {
  }

  lemma PlusPlus(a: Num, x: int, y: int)
    ensures Plus(Plus(a, x), y) == Plus(a, x + y)
  {
  }

  lemma PlusZero(a: Num)
    ensures Plus(a, 0) == a
  {
  }

  // ---------------------------------------------------------------------
  // Participants

  /** An ID takes part in a list of expenses exactly when some expense of
      the list involves it. */
  lemma {:induction false} ParticipantsMembership(expenses: seq<Expense>, u: UserId)
    ensures u in Participants(expenses) <==> exists e :: e in expenses && u in Involved(e)
  {
    if |expenses| > 0 {
      var init := expenses[..|expenses| - 1];
      var last := expenses[|expenses| - 1];
      assert expenses == init + [last];
      ParticipantsMembership(init, u);
      if u in Participants(expenses) && u !in Involved(last) {
        var e :| e in init && u in Involved(e);
        assert e in expenses;
      }
      if exists e :: e in expenses && u in Involved(e) {
        var e :| e in expenses && u in Involved(e);
        if e != last {
          assert e in init;
        }
      }
    }
  }

  /** Reordering the expenses does not change who takes part. */
  lemma ParticipantsPermutation(a: seq<Expense>, b: seq<Expense>)
    requires multiset(a) == multiset(b)
    ensures Participants(a) == Participants(b)
  {
    forall u
      ensures u in Participants(a) <==> u in Participants(b)
    {
      ParticipantsMembership(a, u);
      ParticipantsMembership(b, u);
      if exists e :: e in a && u in Involved(e) {
        var e :| e in a && u in Involved(e);
        assert e in multiset(a);
      }
      if exists e :: e in b && u in Involved(e) {
        var e :| e in b && u in Involved(e);
        assert e in multiset(b);
      }
    }
  }

  // ---------------------------------------------------------------------
  // Values: one expense, then all of them

  /** The debit loop lowers a key it finds by the share once per occurrence
      of that key in the list. */
  lemma {:induction false} DebitAllAt(b: Dict, splitUserIds: seq<UserId>, share: int, u: UserId)
    requires u in b.values
    ensures DebitAll(b, splitUserIds, share).values[u] == Plus(b.values[u], -(share * multiset(splitUserIds)[u]))
  {
    if |splitUserIds| > 0 {
      var last := |splitUserIds| - 1;
      var init := splitUserIds[..last];
      var x := splitUserIds[last];
      assert splitUserIds == init + [x];
      DebitAllAt(b, init, share, u);
      var k := multiset(init)[u];
      var before := DebitAll(b, init, share);
      assert DebitAll(b, splitUserIds, share) == AddTo(before, x, -share);
      if u == x {
        assert multiset(splitUserIds)[u] == k + 1;
        MulSucc(share, k);
        PlusPlus(b.values[u], -(share * k), -share);
      } else {
        assert multiset(splitUserIds)[u] == k;
      }
    }
  }

  /** One expense changes the balance of a key it finds by exactly
      `Delta`: the payer gains the amount less one share per own occurrence
      in the split list, a split member who did not pay loses one share per
      occurrence, and everyone else is unchanged. */
  lemma ExpenseAt(b: Dict, e: Expense, u: UserId)
    requires u in b.values
    ensures ApplyExpense(b, e).values[u] == Plus(b.values[u], Delta(e, u))
    ensures u == e.paidByUserId ==>
      ApplyExpense(b, e).values[u]
        == Plus(b.values[u], e.amountCents - AmountPerPerson(e) * multiset(e.splitUserIds)[u])
    ensures u != e.paidByUserId ==>
      ApplyExpense(b, e).values[u] == Plus(b.values[u], -(AmountPerPerson(e) * multiset(e.splitUserIds)[u]))
    ensures u !in Involved(e) ==> ApplyExpense(b, e).values[u] == b.values[u]
  {
    var credited := AddTo(b, e.paidByUserId, e.amountCents);
    var paid := if u == e.paidByUserId then e.amountCents else 0;
    assert credited.values[u] == Plus(b.values[u], paid);
    DebitAllAt(credited, e.splitUserIds, AmountPerPerson(e), u);
    PlusPlus(b.values[u], paid, -(AmountPerPerson(e) * multiset(e.splitUserIds)[u]));
    if u !in Involved(e) {
      InKeySet(e.splitUserIds, u);
      assert multiset(e.splitUserIds)[u] == 0;
    }
  }

  /** The expense loop adds to a key it starts with the sum of the
      expenses' `Delta`s, whatever else the expenses name. */
  lemma {:induction false} ApplyAllAt(b: Dict, expenses: seq<Expense>, u: UserId)
    requires u in b.values
    ensures u in ApplyAll(b, expenses).values
    ensures ApplyAll(b, expenses).values[u] == Plus(b.values[u], SumDelta(expenses, u))
  {
    if |expenses| > 0 {
      var last := |expenses| - 1;
      var before := ApplyAll(b, expenses[..last]);
      ApplyAllAt(b, expenses[..last], u);
      ApplyAllDomain(b, expenses[..last]);
      ExpenseAt(before, expenses[last], u);
      PlusPlus(b.values[u], SumDelta(expenses[..last], u), Delta(expenses[last], u));
    }
  }

  /** Each roster member's balance is the sum of what every expense adds
      to it. */
  lemma ComputeBalancesAt(expenses: seq<Expense>, memberUserIds: seq<UserId>, u: UserId)
    requires u in memberUserIds
    ensures ComputeBalances(expenses, memberUserIds).values[u] == Cents(SumDelta(expenses, u))
  {
    ApplyAllAt(InitBalances(memberUserIds), expenses, u);
  }

  // ---------------------------------------------------------------------
  // Keys

  lemma {:induction false} DebitAllKeys(b: Dict, splitUserIds: seq<UserId>, share: int)
    requires forall u :: u in splitUserIds ==> u in b.values
    ensures DebitAll(b, splitUserIds, share).keys == b.keys
  {
    if |splitUserIds| > 0 {
      var last := |splitUserIds| - 1;
      assert forall u :: u in splitUserIds[..last] ==> u in splitUserIds;
      DebitAllKeys(b, splitUserIds[..last], share);
    }
  }

  /** An expense naming only keys the object has adds no key and moves none. */
  lemma ExpenseKeys(b: Dict, e: Expense)
    requires Involved(e) <= b.values.Keys
    ensures ApplyExpense(b, e).keys == b.keys
  {
    forall u | u in e.splitUserIds
      ensures u in Involved(e)
    {
      InKeySet(e.splitUserIds, u);
    }
    DebitAllKeys(AddTo(b, e.paidByUserId, e.amountCents), e.splitUserIds, AmountPerPerson(e));
  }

  lemma {:induction false} ApplyAllKeys(b: Dict, expenses: seq<Expense>)
    requires Participants(expenses) <= b.values.Keys
    ensures ApplyAll(b, expenses).keys == b.keys
  {
    if |expenses| > 0 {
      var last := |expenses| - 1;
      ApplyAllKeys(b, expenses[..last]);
      ApplyAllDomain(b, expenses[..last]);
      ExpenseKeys(ApplyAll(b, expenses[..last]), expenses[last]);
    }
  }

  /** When the expenses name only roster members, processing them adds no
      key and reorders none: the result lists the keys of the initial
      object, in its order, its keys are exactly the roster, and each
      balance is the member's `SumDelta`. */
  lemma ComputeBalancesOnRoster(expenses: seq<Expense>, memberUserIds: seq<UserId>)
    requires forall u :: u in Participants(expenses) ==> u in memberUserIds
    ensures ComputeBalances(expenses, memberUserIds).keys == InitBalances(memberUserIds).keys
    ensures forall u :: u in ComputeBalances(expenses, memberUserIds).values <==> u in memberUserIds
    ensures forall u :: u in memberUserIds ==>
      ComputeBalances(expenses, memberUserIds).values[u] == Cents(SumDelta(expenses, u))
  {
    ApplyAllKeys(InitBalances(memberUserIds), expenses);
    forall u | u in memberUserIds
      ensures ComputeBalances(expenses, memberUserIds).values[u] == Cents(SumDelta(expenses, u))
    {
      ComputeBalancesAt(expenses, memberUserIds, u);
    }
  }

  // ---------------------------------------------------------------------
  // NaN from IDs outside the roster

  /** The debit loop leaves a value `NaN` exactly when it already was, or
      when the key was missing and the list names it. */
  lemma {:induction false} DebitAllNaN(b: Dict, splitUserIds: seq<UserId>, share: int, u: UserId)
    ensures u in DebitAll(b, splitUserIds, share).values && DebitAll(b, splitUserIds, share).values[u].NaN?
      <==> (u in b.values && b.values[u].NaN?) || (u !in b.values && u in splitUserIds)
  {
    InKeySet(splitUserIds, u);
    if |splitUserIds| > 0 {
      var last := |splitUserIds| - 1;
      var init := splitUserIds[..last];
      assert splitUserIds == init + [splitUserIds[last]];
      DebitAllNaN(b, init, share, u);
      InKeySet(init, u);
    }
  }

  /** One expense leaves a value `NaN` exactly when it already was, or when
      the key was missing and the expense names it. */
  lemma ExpenseNaN(b: Dict, e: Expense, u: UserId)
    ensures u in ApplyExpense(b, e).values && ApplyExpense(b, e).values[u].NaN?
      <==> (u in b.values && b.values[u].NaN?) || (u !in b.values && u in Involved(e))
  {
    var credited := AddTo(b, e.paidByUserId, e.amountCents);
    InKeySet(e.splitUserIds, u);
    assert u in credited.values && credited.values[u].NaN?
      <==> (u in b.values && b.values[u].NaN?) || (u !in b.values && u == e.paidByUserId);
    DebitAllNaN(credited, e.splitUserIds, AmountPerPerson(e), u);
  }

  /** The expense loop leaves a value `NaN` exactly when it already was, or
      when the key was missing and some expense names it. */
  lemma {:induction false} ApplyAllNaN(b: Dict, expenses: seq<Expense>, u: UserId)
    ensures u in ApplyAll(b, expenses).values && ApplyAll(b, expenses).values[u].NaN?
      <==> (u in b.values && b.values[u].NaN?) || (u !in b.values && u in Participants(expenses))
  {
    if |expenses| > 0 {
      var last := |expenses| - 1;
      ApplyAllNaN(b, expenses[..last], u);
      ApplyAllDomain(b, expenses[..last]);
      ExpenseNaN(ApplyAll(b, expenses[..last]), expenses[last], u);
    }
  }

  /** A balance of `computeBalances` is `NaN` exactly for the IDs the
      expenses name that are not on the roster; every other balance is a
      whole number of cents. */
  lemma ComputeBalancesNaN(expenses: seq<Expense>, memberUserIds: seq<UserId>, u: UserId)
    ensures u in ComputeBalances(expenses, memberUserIds).values
      && ComputeBalances(expenses, memberUserIds).values[u].NaN?
      <==> u !in memberUserIds && u in Participants(expenses)
  {
    ApplyAllNaN(InitBalances(memberUserIds), expenses, u);
  }

  // ---------------------------------------------------------------------
  // Order independence

  lemma {:induction false} SumDeltaAppend(a: seq<Expense>, b: seq<Expense>, u: UserId)
    ensures SumDelta(a + b, u) == SumDelta(a, u) + SumDelta(b, u)
  {
    if |b| > 0 {
      var last := |b| - 1;
      assert (a + b)[..|a + b| - 1] == a + b[..last];
      SumDeltaAppend(a, b[..last], u);
    } else {
      assert a + b == a;
    }
  }

  /** Taking one entry out of a list takes one copy of it out of the
      list's multiset. */
  lemma RemoveOne(b: seq<Expense>, i: int)
    requires 0 <= i < |b|
    ensures multiset(b[..i] + b[i + 1..]) == multiset(b) - multiset{b[i]}
  {
    assert b == b[..i] + [b[i]] + b[i + 1..];
  }

  /** Moving one expense to the end of the list does not change its sum. */
  lemma MoveLast(front: seq<Expense>, x: Expense, back: seq<Expense>, u: UserId)
    ensures SumDelta(front + [x] + back, u) == SumDelta(front + back, u) + Delta(x, u)
  {
    SumDeltaAppend(front + [x], back, u);
    SumDeltaAppend(front, [x], u);
    SumDeltaAppend(front, back, u);
    assert SumDelta([x], u) == Delta(x, u) by {
      assert [x][..0] == [];
    }
  }

  /** Where the last expense of `a` sits in its permutation `b`, and the
      two lists without it are still permutations of each other. */
  lemma MatchLast(a: seq<Expense>, b: seq<Expense>) returns (i: int)
    requires |a| > 0
    requires multiset(a) == multiset(b)
    ensures 0 <= i < |b| && b[i] == a[|a| - 1]
    ensures multiset(a[..|a| - 1]) == multiset(b[..i] + b[i + 1..])
  {
    var last := |a| - 1;
    assert a[last] in multiset(b) by {
      assert a[last] in a;
    }
    i :| 0 <= i < |b| && b[i] == a[last];
    RemoveOne(a, last);
    RemoveOne(b, i);
    assert a[..last] + a[last + 1..] == a[..last];
  }

  /** What a list of expenses adds to a member depends only on which
      expenses it holds, not on their order. */
  lemma {:induction false} SumDeltaPermutation(a: seq<Expense>, b: seq<Expense>, u: UserId)
    requires multiset(a) == multiset(b)
    ensures SumDelta(a, u) == SumDelta(b, u)
  {
    if |a| > 0 {
      var i := MatchLast(a, b);
      var front, back := b[..i], b[i + 1..];
      SumDeltaPermutation(a[..|a| - 1], front + back, u);
      MoveLast(front, b[i], back, u);
      assert b == front + [b[i]] + back;
    } else {
      assert |b| == 0;
    }
  }

  /** Reordering the expenses does not change the value of any key. */
  lemma SameValueAt(a: seq<Expense>, b: seq<Expense>, memberUserIds: seq<UserId>, u: UserId)
    requires multiset(a) == multiset(b)
    requires u in memberUserIds || u in Participants(a)
    ensures u in ComputeBalances(b, memberUserIds).values
    ensures ComputeBalances(a, memberUserIds).values[u] == ComputeBalances(b, memberUserIds).values[u]
  {
    ParticipantsPermutation(a, b);
    if u in memberUserIds {
      ComputeBalancesAt(a, memberUserIds, u);
      ComputeBalancesAt(b, memberUserIds, u);
      SumDeltaPermutation(a, b, u);
    } else {
      ComputeBalancesNaN(a, memberUserIds, u);
      ComputeBalancesNaN(b, memberUserIds, u);
    }
  }

  lemma SameValues(a: seq<Expense>, b: seq<Expense>, memberUserIds: seq<UserId>)
    requires multiset(a) == multiset(b)
    ensures ComputeBalances(a, memberUserIds).values == ComputeBalances(b, memberUserIds).values
  {
    var ra, rb := ComputeBalances(a, memberUserIds), ComputeBalances(b, memberUserIds);
    ParticipantsPermutation(a, b);
    forall u | u in ra.values
      ensures u in rb.values && ra.values[u] == rb.values[u]
    {
      SameValueAt(a, b, memberUserIds, u);
    }
  }

  /** Reordering the expenses never changes any balance; when they name
      only roster members, it does not change the key order either, so the
      balance objects are identical. */
  lemma OrderIndependent(a: seq<Expense>, b: seq<Expense>, memberUserIds: seq<UserId>)
    requires multiset(a) == multiset(b)
    ensures ComputeBalances(a, memberUserIds).values == ComputeBalances(b, memberUserIds).values
    ensures (forall u :: u in Participants(a) ==> u in memberUserIds) ==>
      ComputeBalances(a, memberUserIds) == ComputeBalances(b, memberUserIds)
  {
    SameValues(a, b, memberUserIds);
    if forall u :: u in Participants(a) ==> u in memberUserIds {
      ParticipantsPermutation(a, b);
      ApplyAllKeys(InitBalances(memberUserIds), a);
      ApplyAllKeys(InitBalances(memberUserIds), b);
    }
  }

  // ---------------------------------------------------------------------
  // Group total

  /** The per-expense leak is the floor remainder: between 0 and one less
      than the split length. An empty split list leaks the whole amount,
      since the payer is credited and nobody is debited. */
  lemma LeakIsRemainder(e: Expense)
    ensures |e.splitUserIds| > 0 ==>
      Leak(e) == e.amountCents % |e.splitUserIds| && 0 <= Leak(e) < |e.splitUserIds|
    ensures |e.splitUserIds| == 0 ==> Leak(e) == e.amountCents
  {
    if |e.splitUserIds| > 0 {
      var n := |e.splitUserIds|;
      assert e.amountCents == (e.amountCents / n) * n + e.amountCents % n;
    }
  }

  /** One more debit of the share lowers the total by one more share. */
  lemma DebitStepTotal(b: Dict, before: Dict, x: UserId, share: int, count: int)
    requires Valid(b) && Valid(before) && x in before.values
    requires Total(before) == Plus(Total(b), -(share * count))
    ensures Valid(AddTo(before, x, -share))
    ensures Total(AddTo(before, x, -share)) == Plus(Total(b), -(share * (count + 1)))
  {
    TotalAddTo(before, x, -share);
    PlusPlus(Total(b), -(share * count), -share);
    MulSucc(share, count);
  }

  /** The debit loop on keys the object has lowers the total by the share
      once per entry. */
  lemma {:induction false} DebitAllTotal(b: Dict, splitUserIds: seq<UserId>, share: int)
    requires Valid(b)
    requires forall u :: u in splitUserIds ==> u in b.values
    ensures Total(DebitAll(b, splitUserIds, share)) == Plus(Total(b), -(share * |splitUserIds|))
  {
    if |splitUserIds| > 0 {
      var init := splitUserIds[..|splitUserIds| - 1];
      var x := splitUserIds[|splitUserIds| - 1];
      assert forall u :: u in init ==> u in splitUserIds;
      DebitAllTotal(b, init, share);
      assert x in DebitAll(b, init, share).values;
      DebitStepTotal(b, DebitAll(b, init, share), x, share, |init|);
      assert |init| + 1 == |splitUserIds|;
    } else {
      PlusZero(Total(b));
    }
  }

  /** One expense naming only keys the object has changes the sum of all
      balances by its leak. */
  lemma ExpenseTotal(b: Dict, e: Expense)
    requires Valid(b)
    requires Involved(e) <= b.values.Keys
    ensures Total(ApplyExpense(b, e)) == Plus(Total(b), Leak(e))
  {
    var credited := AddTo(b, e.paidByUserId, e.amountCents);
    var debit := AmountPerPerson(e) * |e.splitUserIds|;
    TotalAddTo(b, e.paidByUserId, e.amountCents);
    forall u | u in e.splitUserIds
      ensures u in Involved(e)
    {
      InKeySet(e.splitUserIds, u);
    }
    DebitAllTotal(credited, e.splitUserIds, AmountPerPerson(e));
    PlusPlus(Total(b), e.amountCents, -debit);
  }

  lemma {:induction false} ApplyAllTotal(b: Dict, expenses: seq<Expense>)
    requires Valid(b)
    requires Participants(expenses) <= b.values.Keys
    ensures Total(ApplyAll(b, expenses)) == Plus(Total(b), SumLeak(expenses))
  {
    if |expenses| > 0 {
      var init, e := expenses[..|expenses| - 1], expenses[|expenses| - 1];
      ApplyAllTotal(b, init);
      ApplyAllDomain(b, init);
      ExpenseTotal(ApplyAll(b, init), e);
      PlusPlus(Total(b), SumLeak(init), Leak(e));
    } else {
      PlusZero(Total(b));
    }
  }

  lemma {:induction false} SumOfZeros(ks: seq<Key>, m: map<Key, Num>)
    requires KeySet(ks) <= m.Keys
    requires forall k :: k in m ==> m[k] == Cents(0)
    ensures SumOf(ks, m) == Cents(0)
  {
    if |ks| > 0 {
      SumOfZeros(ks[..|ks| - 1], m);
    }
  }

  /** For expenses that name only roster members, the sum of all balances
      is the sum of the per-expense leaks, not 0. */
  lemma GroupTotal(expenses: seq<Expense>, memberUserIds: seq<UserId>)
    requires forall u :: u in Participants(expenses) ==> u in memberUserIds
    ensures Total(ComputeBalances(expenses, memberUserIds)) == Cents(SumLeak(expenses))
  {
    var init := InitBalances(memberUserIds);
    SumOfZeros(init.keys, init.values);
    ApplyAllTotal(init, expenses);
  }

  /** The leaks never add up to a negative amount while every expense has
      a non-empty split list or a non-negative amount. */
  lemma {:induction false} SumLeakNonNegative(expenses: seq<Expense>)
    requires forall e :: e in expenses ==> |e.splitUserIds| > 0 || e.amountCents >= 0
    ensures SumLeak(expenses) >= 0
  {
    if |expenses| > 0 {
      var last := |expenses| - 1;
      assert forall e :: e in expenses[..last] ==> e in expenses;
      SumLeakNonNegative(expenses[..last]);
      LeakIsRemainder(expenses[last]);
    }
  }

}
