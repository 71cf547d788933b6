/** `CreateTransactionService.execute`: validate one request, refuse an
    outcome the income does not cover, find or create the category by title,
    and append one transaction. */
module CreateTransactionService {
  import opened Ledger
  import opened Balances
  import opened CategoryResolution
  import opened TransactionStore

  /** The type check; a known type is never empty, so the later test for a
      missing type never fires. */
  function IsKnownType(kind: string): (r: bool)
    ensures r ==> kind != ""
  {
    kind == INCOME || kind == OUTCOME
  }

  /** The balance check: an outcome whose value, added to the outcomes so
      far, would exceed the income so far. An income is never refused, and
      an outcome is refused exactly when it exceeds the current total. */
  function Overdraws(b: Balance, kind: string, value: int): (r: bool)
    ensures r ==> kind == OUTCOME
    ensures b.total == b.income - b.outcome ==> (r <==> kind == OUTCOME && value > b.total)
  {
    kind == OUTCOME && value + b.outcome > b.income
  }

  /** A transaction the balance check lets through leaves a non-negative
      total non-negative, provided an income does not carry a negative value. */
  lemma AdmittedKeepsSolvent(ts: seq<Transaction>, t: Transaction)
    requires GetBalance(ts).total >= 0
    requires !Overdraws(GetBalance(ts), t.kind, t.value)
    requires t.kind == OUTCOME || t.value >= 0
    ensures GetBalance(ts + [t]).total >= 0
  {
    BalanceAppend(ts, t);
  }

  /** The source does not reject a negative value: an income of -10 on an
      empty ledger passes the balance check and leaves a total of -10. */
  lemma NegativeIncomeOverdraws()
    ensures !Overdraws(GetBalance([]), INCOME, -10)
    ensures GetBalance([Transaction(0, "refund", -10, INCOME, 0)]).total == -10
  {
    BalanceAppend([], Transaction(0, "refund", -10, INCOME, 0));
  }

  /** With income 100 and outcome 30, an outcome of 80 is refused (30 + 80 > 100)
      and an outcome of 70 is accepted (30 + 70 is not above 100). */
  lemma OutcomeCheckExample()
    ensures var ts := [Transaction(0, "salary", 100, INCOME, 0), Transaction(1, "rent", 30, OUTCOME, 0)];
            Overdraws(GetBalance(ts), OUTCOME, 80) && !Overdraws(GetBalance(ts), OUTCOME, 70)
  {
    var t0, t1 := Transaction(0, "salary", 100, INCOME, 0), Transaction(1, "rent", 30, OUTCOME, 0);
    BalanceAppend([], t0);
    assert [t0] + [t1] == [t0, t1];
    BalanceAppend([t0], t1);
  }

  /** Looks the category up by title, and creates and saves it when it is absent. */
  method FindOrCreateCategory(store: Store, title: string) returns (c: Category)
    requires store.Valid()
    modifies store`categories, store`nextCategoryId
    ensures store.Valid()
    ensures c == Category(c.id, title) && c.id in CategoryIds(store.categories)
    ensures FindByTitle(store.categories, title) == Some(c)
    ensures title in Titles(old(store.categories)) ==> store.categories == old(store.categories)
    ensures title !in Titles(old(store.categories)) ==> store.categories == old(store.categories) + [c]
  {
    var saved := FindByTitle(store.categories, title);
    if saved.None? {
      var created := Category(store.nextCategoryId, title);
      AddCategoriesValid(store.transactions, store.categories, store.nextTransactionId, store.nextCategoryId, [created]);
      store.categories := store.categories + [created];
      store.nextCategoryId := store.nextCategoryId + 1;
      saved := Some(created);
    }
    c := saved.value;
    FindUnique(store.categories, c);
  }

  method Execute(store: Store, title: string, value: int, kind: string, category: string)
    returns (r: Result<Transaction>)
    requires store.Valid()
    modifies store
    ensures store.Valid()
    // the checks run in order: type, then missing fields, then the balance
    ensures r == Failure(InvalidType) <==> !IsKnownType(kind)
    ensures r == Failure(MissingField) <==>
              IsKnownType(kind) && (title == "" || value == 0 || category == "")
    ensures r == Failure(InsufficientIncome) <==>
              IsKnownType(kind) && title != "" && value != 0 && category != "" &&
              Overdraws(old(store.CurrentBalance()), kind, value)
    // a request that passes the three checks is saved
    ensures r.Success? <==>
              IsKnownType(kind) && title != "" && value != 0 && category != "" &&
              !Overdraws(old(store.CurrentBalance()), kind, value)
    ensures r.Failure? ==> unchanged(store)
    // on success exactly one transaction is appended ...
    ensures r.Success? ==>
              && r.value.title == title && r.value.value == value && r.value.kind == kind
              && r.value.id !in TransactionIds(old(store.transactions))
              && store.transactions == old(store.transactions) + [r.value]
    // ... referring to the one category with the requested title, created only if absent
    ensures r.Success? ==>
              && FindByTitle(store.categories, category) == Some(Category(r.value.categoryId, category))
              && (category in Titles(old(store.categories)) ==> store.categories == old(store.categories))
              && (category !in Titles(old(store.categories)) ==>
                    store.categories == old(store.categories) + [Category(r.value.categoryId, category)])
    // the new transaction moves only the field its type names
    ensures r.Success? ==>
              && store.CurrentBalance().income == old(store.CurrentBalance()).income + (if kind == INCOME then value else 0)
              && store.CurrentBalance().outcome == old(store.CurrentBalance()).outcome + (if kind == OUTCOME then value else 0)
    ensures r.Success? && old(store.CurrentBalance()).total >= 0 && (kind == OUTCOME || value >= 0) ==>
              store.CurrentBalance().total >= 0
  {
    if !(kind == INCOME || kind == OUTCOME) {
      return Failure(InvalidType);
    }
    if title == "" || value == 0 || kind == "" || category == "" {
      return Failure(MissingField);
    }
    var balance := GetBalance(store.transactions);
    if kind == OUTCOME && value + balance.outcome > balance.income {
      return Failure(InsufficientIncome);
    }

    var saved := FindOrCreateCategory(store, category);

    var transaction := Transaction(store.nextTransactionId, title, value, kind, saved.id);
    AddTransactionsValid(store.transactions, store.categories, store.nextTransactionId, store.nextCategoryId, [transaction]);
    BalanceAppend(store.transactions, transaction);
    if balance.total >= 0 && (kind == OUTCOME || value >= 0) {
      AdmittedKeepsSolvent(store.transactions, transaction);
    }
    store.transactions := store.transactions + [transaction];
    store.nextTransactionId := store.nextTransactionId + 1;
    return Success(transaction);
  }
}
