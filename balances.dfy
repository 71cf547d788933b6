/** `TransactionsRepository.getBalance`: a left fold over every stored
    transaction that adds its value to the field named by its type and
    recomputes `total` after each step. */
module Balances {
  import opened Ledger

  datatype Balance = Balance(income: int, outcome: int, total: int)

  /** The fold's initial accumulator. */
  const Zero: Balance := Balance(0, 0, 0)

  /** One step of the reduce: `acc[type] += value; acc.total = income - outcome`.
      A type other than "income" or "outcome" writes a property the result
      never reads, so it changes neither field. */
  function Accumulate(acc: Balance, t: Transaction): (r: Balance)
    ensures r.total == r.income - r.outcome
    ensures r.income == acc.income || r.outcome == acc.outcome
    ensures (r.income - acc.income) + (r.outcome - acc.outcome) ==
            (if t.kind == INCOME || t.kind == OUTCOME then t.value else 0)
  {
    var income := if t.kind == INCOME then acc.income + t.value else acc.income;
    var outcome := if t.kind == OUTCOME then acc.outcome + t.value else acc.outcome;
    Balance(income, outcome, income - outcome)
  }

  /** The balance of a transaction list, folded from the first element. */
  function GetBalance(ts: seq<Transaction>): (b: Balance)
    ensures ts == [] ==> b == Zero
    ensures b.total == b.income - b.outcome
  {
    if ts == [] then Zero else Accumulate(GetBalance(ts[..|ts| - 1]), ts[|ts| - 1])
  }

  /** Reference definition: the sum of the values of the transactions of one type. */
  function SumOf(ts: seq<Transaction>, kind: string): int {
    if ts == [] then 0
    else (if ts[0].kind == kind then ts[0].value else 0) + SumOf(ts[1..], kind)
  }

  lemma {:induction false} SumOfConcat(a: seq<Transaction>, b: seq<Transaction>, kind: string)
    ensures SumOf(a + b, kind) == SumOf(a, kind) + SumOf(b, kind)
  {
    if a == [] {
      assert a + b == b;
    } else {
      assert (a + b)[1..] == a[1..] + b;
      SumOfConcat(a[1..], b, kind);
    }
  }

  /** income and outcome are the per-type sums, and total is their difference. */
  lemma {:induction false} BalanceIsSums(ts: seq<Transaction>)
    ensures GetBalance(ts).income == SumOf(ts, INCOME)
    ensures GetBalance(ts).outcome == SumOf(ts, OUTCOME)
    ensures GetBalance(ts).total == SumOf(ts, INCOME) - SumOf(ts, OUTCOME)
  {
    if ts != [] {
      var init, last := ts[..|ts| - 1], ts[|ts| - 1];
      BalanceIsSums(init);
      assert ts == init + [last];
      SumOfConcat(init, [last], INCOME);
      SumOfConcat(init, [last], OUTCOME);
    }
  }

  /** Appending one transaction adds its value to exactly the field its type
      names and leaves the other field as it was. */
  lemma BalanceAppend(ts: seq<Transaction>, t: Transaction)
    ensures GetBalance(ts + [t]).income == GetBalance(ts).income + (if t.kind == INCOME then t.value else 0)
    ensures GetBalance(ts + [t]).outcome == GetBalance(ts).outcome + (if t.kind == OUTCOME then t.value else 0)
  {
    assert (ts + [t])[..|ts|] == ts;
  }

  /** Appending a batch adds each type's sum over the batch. */
  lemma BalanceAppendAll(ts: seq<Transaction>, more: seq<Transaction>)
    ensures GetBalance(ts + more).income == GetBalance(ts).income + SumOf(more, INCOME)
    ensures GetBalance(ts + more).outcome == GetBalance(ts).outcome + SumOf(more, OUTCOME)
  {
    BalanceIsSums(ts);
    BalanceIsSums(ts + more);
    SumOfConcat(ts, more, INCOME);
    SumOfConcat(ts, more, OUTCOME);
  }

  /** The value one transaction contributes to the sum of one type. */
  function Contribution(t: Transaction, kind: string): int {
    if t.kind == kind then t.value else 0
  }

  lemma SumOfRemove(b: seq<Transaction>, j: nat, kind: string)
    requires j < |b|
    ensures SumOf(b, kind) == Contribution(b[j], kind) + SumOf(b[..j] + b[j + 1..], kind)
  {
    assert b == b[..j] + ([b[j]] + b[j + 1..]);
    SumOfConcat(b[..j], [b[j]] + b[j + 1..], kind);
    assert ([b[j]] + b[j + 1..])[1..] == b[j + 1..];
    SumOfConcat(b[..j], b[j + 1..], kind);
  }

  /** Removing position `j` of `b` removes one occurrence of `b[j]`. */
  lemma MultisetRemove(b: seq<Transaction>, j: nat)
    requires j < |b|
    ensures multiset(b[..j] + b[j + 1..]) == multiset(b) - multiset{b[j]}
  {
    assert b == b[..j] + [b[j]] + b[j + 1..];
  }

  /** A position of `b` that holds `x`. */
  lemma PositionOf(b: seq<Transaction>, x: Transaction) returns (j: nat)
    requires x in multiset(b)
    ensures j < |b| && b[j] == x
  {
    assert x in b;
    j :| 0 <= j < |b| && b[j] == x;
  }

  /** Once the head of `a` is matched with `b[j]`, the tail of `a` is a
      permutation of what is left of `b`. */
  lemma PermutationTail(a: seq<Transaction>, b: seq<Transaction>, j: nat)
    requires multiset(a) == multiset(b) && a != []
    requires j < |b| && b[j] == a[0]
    ensures multiset(a[1..]) == multiset(b[..j] + b[j + 1..])
  {
    MultisetRemove(b, j);
    assert a == [a[0]] + a[1..];
  }

  lemma {:induction false} SumOfPermutation(a: seq<Transaction>, b: seq<Transaction>, kind: string)
    requires multiset(a) == multiset(b)
    ensures SumOf(a, kind) == SumOf(b, kind)
    decreases |a|
  {
    if a == [] {
      assert |b| == |multiset(b)| == 0;
    } else {
      var j := PositionOf(b, a[0]);
      PermutationTail(a, b, j);
      SumOfPermutation(a[1..], b[..j] + b[j + 1..], kind);
      SumOfRemove(b, j, kind);
    }
  }

  /** The balance does not depend on the order of the transactions. */
  lemma BalancePermutation(a: seq<Transaction>, b: seq<Transaction>)
    requires multiset(a) == multiset(b)
    ensures GetBalance(a) == GetBalance(b)
  {
    BalanceIsSums(a);
    BalanceIsSums(b);
    SumOfPermutation(a, b, INCOME);
    SumOfPermutation(a, b, OUTCOME);
  }
}
