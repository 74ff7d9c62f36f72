# expenseSplitter balances and settle-up debtors, in Dafny

This project models the pure core of the expenseSplitter Cloud Functions
(`functions/index.js`). The core has two parts.

- `computeBalances(expenses, memberUserIds)` folds a group's expenses over
  its member roster. It produces a balance object from user ID to signed
  cents: positive means the member is owed money, negative means they owe.
  - Every roster member starts at 0.
  - Each expense credits its payer the full `amountCents`.
  - Each entry of `splitUserIds` is debited `Math.floor(amountCents / splitUserIds.length)`.
  - The floor remainder is credited to nobody.
- The daily reminder job reads that object with `Object.entries`. It keeps
  every member whose balance is strictly below -100 cents, turns each into
  a `{ userId, balance }` record, and skips the group when the list is empty.

## Files

- `JsNumber.dfy` holds the numbers the code produces: whole cents, or
  `NaN`. In JavaScript, `undefined + n` is `NaN`, and `NaN` absorbs every
  later addition.
- `JsObject.dfy` holds the plain object used as a dictionary: its
  insertion-ordered key list (the order `Object.entries` reports), its
  key/value map, `d[k] = v`, `d[k] += n`, and the sum of all values.
- `Balances.dfy` holds `computeBalances`.
  - It is written as recursive folds that mirror the three loops.
  - It is also written as the loops themselves (methods), each proved equal
    to its fold.
- `BalanceLaws.dfy` holds what the fold promises, each law stated against
  an independent definition:
  - The value and total laws use closed forms. These are the sum over
    expenses of what each expense adds to a member (`Delta`, `SumDelta`),
    and the remainder each expense leaves in the group total (`Leak`,
    `SumLeak`).
  - The key and `NaN` laws use the set of IDs the expenses name
    (`Involved`, `Participants`).
  - The laws are: per-expense deltas; key preservation; `NaN` exactly for
    IDs outside the roster; order independence; the group total.
- `Reminders.dfy` holds the debtor filter and the "no debtors, no reminder"
  rule, connected to the balances.

Three behaviours of the code are worth stating plainly:

- **Empty split list.** The code raises no error. The share is `Infinity`,
  `-Infinity` or `NaN`, the debit loop (functions/index.js:161) does not
  run, and the payer keeps the full credit. The model does the same.
- **IDs outside the roster.** A payer or split ID that is not on the roster
  ends up with `NaN`, because `undefined + n` is `NaN`. The model does the
  same, and `BalanceLaws.ComputeBalancesNaN` characterises exactly which
  keys end up `NaN`.
- **Manual trigger.** `sendGroupReminder` (functions/index.js:79-142)
  computes no balances.

Duplicates in `splitUserIds` are kept: an ID listed twice counts twice
toward the divisor and is debited twice.

## Model

| member | source | states |
|---|---|---|
| `Balances.AmountPerPerson` | functions/index.js:155 | for a non-empty split, the share is the floor of amount over length: `share * n <= amount < share * n + n` |
| `Balances.InitBalances` | functions/index.js:146-151 | the initial object is well formed, holds exactly the roster IDs, and holds 0 for each |
| `Balances.DebitAll` | functions/index.js:160-163 | the debit loop keeps the object well formed; its keys are the old keys plus the split IDs |
| `Balances.ApplyExpense` | functions/index.js:155-163 | one pass of the expense loop keeps the object well formed; `BalanceLaws.ExpenseAt`, `ExpenseNaN` and `ExpenseTotal` give its effect on each value and on the total |
| `Balances.ApplyAll` | functions/index.js:154-164 | the expense loop keeps the object well formed; `BalanceLaws.ApplyAllAt`, `ApplyAllNaN` and `ApplyAllTotal` give its effect |
| `Balances.ComputeBalances` | functions/index.js:145-167 | the result is well formed; its key set is the roster plus every ID an expense names |
| `Balances.NoExpenses` | functions/index.js:146-166 | with no expenses the result holds exactly the roster IDs, each at 0 |
| `Balances.ApplyAllDomain` | functions/index.js:154-164 | the expense loop adds exactly the IDs the expenses name to the keys |
| `Balances.ComputeBalancesLoop` | functions/index.js:145-167 | the two loops as written compute the fold `ComputeBalances` |
| `Balances.DebitLoop` | functions/index.js:161-163 | the inner debit loop as written computes `DebitAll` |
| `BalanceLaws.ParticipantsMembership` | functions/index.js:154-163 | an ID is touched by a list of expenses iff it pays or is in the split list of one of them |
| `BalanceLaws.DebitAllAt` | functions/index.js:161-163 | the debit loop lowers an existing key by the share once per occurrence of that key in the split list |
| `BalanceLaws.ExpenseAt` | functions/index.js:154-164 | one expense moves a balance by exactly `Delta`: the payer gains the amount less one share per own occurrence in the split; a non-paying split member loses one share per occurrence; anyone else is unchanged |
| `BalanceLaws.ApplyAllAt` | functions/index.js:154-164 | the expense loop adds to an existing key the sum of the expenses' `Delta`s |
| `BalanceLaws.ComputeBalancesAt` | functions/index.js:145-167 | each roster member's balance is `SumDelta`, a whole number of cents |
| `BalanceLaws.ApplyAllKeys` | functions/index.js:154-164 | expenses naming only existing keys add no key and reorder none |
| `BalanceLaws.ComputeBalancesOnRoster` | functions/index.js:145-167 | when every participant is on the roster, the key list is the initial object's key list, unchanged; the key set is exactly the roster; and every balance is `SumDelta` |
| `BalanceLaws.DebitAllNaN` | functions/index.js:161-163 | the debit loop makes a value `NaN` iff it already was, or the key was missing and the split list names it |
| `BalanceLaws.ExpenseNaN` | functions/index.js:157-163 | one expense makes a value `NaN` iff it already was, or the key was missing and the expense names it |
| `BalanceLaws.ComputeBalancesNaN` | functions/index.js:145-167 | a balance is `NaN` iff the ID is off the roster and some expense names it |
| `BalanceLaws.SumDeltaPermutation` | functions/index.js:154-164 | the closed-form sum does not depend on the order of the expenses |
| `BalanceLaws.ParticipantsPermutation` | functions/index.js:154-164 | reordering the expenses does not change which IDs they touch |
| `BalanceLaws.OrderIndependent` | functions/index.js:145-167 | any permutation of the expenses gives the same balances; when all participants are on the roster it gives the identical object, key order included |
| `BalanceLaws.LeakIsRemainder` | functions/index.js:155-163 | one expense leaves `amount % n` in the group total, between 0 and `n - 1`; with an empty split it leaves the whole amount |
| `BalanceLaws.DebitAllTotal` | functions/index.js:161-163 | debiting existing keys lowers the sum of all balances by the share times the split length |
| `BalanceLaws.ExpenseTotal` | functions/index.js:155-163 | one expense on existing keys raises the sum of all balances by its leak |
| `BalanceLaws.ApplyAllTotal` | functions/index.js:154-164 | on a well-formed object, when every ID the expenses name is already a key, the expense loop raises the sum of all balances by the sum of the leaks |
| `BalanceLaws.GroupTotal` | functions/index.js:145-167 | with all participants on the roster, the balances sum to the sum of the leaks, not to 0 |
| `BalanceLaws.SumLeakNonNegative` | functions/index.js:155-163 | the sum of leaks is never negative while every expense has a non-empty split or a non-negative amount |
| `Reminders.Entries` | functions/index.js:37 | `Object.entries` lists one pair per key, in key order, each key with its value |
| `Reminders.InEntries` | functions/index.js:37 | a pair is an entry iff its key is listed and its value is the key's value |
| `Reminders.SelectDebtors` | functions/index.js:37-39 | the debtor list of an object is no longer than its key list and holds only balances below -100; `FlaggedExactly` and `FlaggedOnce` say which members it holds |
| `Reminders.ShouldRemind` | functions/index.js:41 | a group is reminded iff its debtor list has an entry; `RemindExactly` says when that is |
| `Reminders.Debtors` | functions/index.js:37-39 | the filter never lengthens the list; it keeps only entries below -100, with their balances; every entry below -100 is kept |
| `Reminders.DebtorsAppend` | functions/index.js:37-39 | the filter and map keep the entry order: selecting from joined lists joins the selections |
| `Reminders.FlaggedExactly` | functions/index.js:37-39 | a member is flagged iff the object holds a balance below -100 for them, and is flagged with that balance |
| `Reminders.FlaggedOnce` | functions/index.js:37-39 | no member is flagged twice |
| `Reminders.RemindExactly` | functions/index.js:37-41 | the group gets a reminder iff some member's balance is below -100 |
| `Reminders.FlaggedIff` | functions/index.js:34-39 | an ID is flagged iff it is on the roster and its `SumDelta` is below -100, and is flagged with that sum; an off-roster ID is never flagged because its balance is `NaN` and `NaN < -100` is false |
| `Reminders.ThresholdIsStrict` | functions/index.js:38 | a balance of exactly -100 is not flagged; one of -101 is |
| `JsObject.Get` | functions/index.js:158-162 | reading `d[k]` of a well-formed object gives the value of a listed key, and `NaN` (the `undefined` operand) for a key that is not listed |
| `JsObject.Set` | functions/index.js:150 | `d[k] = v` keeps the object well formed and changes the value of `k` only; an existing key keeps its place and a new key goes last |
| `JsObject.AddTo` | functions/index.js:158-162 | `d[k] += n` keeps the object well formed; an existing key keeps its place and gains `n`; a missing key is appended and holds `NaN` |
| `JsObject.TotalAddTo` | functions/index.js:158 | `d[k] += n` on an existing key keeps the object well formed and raises the sum of its values by `n` |

## Left out

- The Firestore reads of groups, expenses and users, and the FCM
  `sendMulticast` call (functions/index.js:11-31, 44-53, 70-75, 90-116,
  135-141). These are network I/O through SDKs whose code is not part of
  this model.
- The Pub/Sub schedule and its time zone (functions/index.js:7-10). These
  are platform configuration.
- The callable `sendGroupReminder`'s authentication, argument and
  membership checks, and its `HttpsError` results (functions/index.js:79-142).
  They are glue over the Firebase auth context.
- The notification titles and bodies (functions/index.js:58-68, 123-133).
  This is string formatting.
- JavaScript numbers are modelled as unbounded integers. Two consequences:
  - Rounding of sums beyond 2^53 is not modelled.
  - A non-integer or non-numeric `amountCents` is not modelled.
  For the integer amounts the code expects, `Math.floor` of the double
  quotient equals Dafny's `/` for a positive divisor.
- Expense records and rosters are assumed to have their fields with the
  stated types. The code does not check this. The unmodelled cases are:
  - An expense without `splitUserIds` throws a `TypeError` at
    functions/index.js:155.
  - A group without `memberUserIds` throws at functions/index.js:149.
  - The call at functions/index.js:34 is outside any `try`, so either error
    ends the whole scheduled run, not just one group.
  - A missing `paidByUserId` creates the key `"undefined"`.
- Balances.AmountPerPerson: gives 0 for an empty split list, where
  JavaScript gives `Infinity` or `NaN`. No debit ever uses that value.
- Keys that JavaScript objects treat specially are not modelled:
  - array-index strings, which `Object.entries` lists first in numeric order;
  - `__proto__`;
  - names inherited from `Object.prototype` (`toString`, `constructor`,
    `valueOf`, `hasOwnProperty` and the rest). An off-roster payer with such a
    name gets a string, because the inherited function plus a number
    concatenates. `BalanceLaws.ComputeBalancesNaN` does not describe that
    case.
  Firebase user IDs are none of these.
- BalanceLaws.ComputeBalancesOnRoster: requires every payer and split ID to
  be on the roster, as do the second clause of `BalanceLaws.OrderIndependent`
  and `BalanceLaws.GroupTotal`. Otherwise a key is `NaN` and the total is
  `NaN`; `BalanceLaws.ComputeBalancesNaN` covers that case.
- BalanceLaws.GroupTotal: stated only for expenses whose participants are
  all on the roster, for the reason above.
- Determinism and the absence of side effects are not stated as lemmas.
  Every operation here is a function on immutable values, so identical
  inputs give identical results, and the expense records cannot be
  changed.
