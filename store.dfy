/** The shared in-memory store standing for the two repositories: the
    transactions table and the categories table. */
module TransactionStore {
  import opened Ledger
  import opened Balances

  /** The integrity the tables keep: unique category titles, unique ids in
      both tables, ids below the next generated one, and every transaction
      referring to a stored category. */
  predicate ValidTables(ts: seq<Transaction>, cs: seq<Category>, nextTransactionId: nat, nextCategoryId: nat) {
    && UniqueTitles(cs)
    && (forall i, j :: 0 <= i < j < |cs| ==> cs[i].id != cs[j].id)
    && (forall c :: c in cs ==> c.id < nextCategoryId)
    && UniqueIds(ts)
    && (forall t :: t in ts ==> t.id < nextTransactionId)
    && (forall t :: t in ts ==> t.categoryId in CategoryIds(cs))
  }

  class Store {
    var transactions: seq<Transaction>
    var categories: seq<Category>
    /** Generators standing for the ids the storage assigns on insert. */
    var nextTransactionId: nat
    var nextCategoryId: nat

    ghost predicate Valid()
      reads this
    {
      ValidTables(transactions, categories, nextTransactionId, nextCategoryId)
    }

    constructor ()
      ensures Valid()
      ensures transactions == [] && categories == []
    {
      transactions := [];
      categories := [];
      nextTransactionId := 0;
      nextCategoryId := 0;
    }

    /** `TransactionsRepository.getBalance()` over the stored transactions. */
    function CurrentBalance(): (b: Balance)
      reads this
      ensures transactions == [] ==> b == Zero
      ensures b.total == b.income - b.outcome
    {
      GetBalance(transactions)
    }
  }

  /** Adding categories with fresh ids and new, distinct titles keeps the tables valid. */
  lemma AddCategoriesValid(ts: seq<Transaction>, cs: seq<Category>, nextT: nat, nextC: nat, added: seq<Category>)
    requires ValidTables(ts, cs, nextT, nextC)
    requires UniqueTitles(added)
    requires forall c :: c in added ==> c.title !in Titles(cs)
    requires forall i :: 0 <= i < |added| ==> added[i].id == nextC + i
    ensures ValidTables(ts, cs + added, nextT, nextC + |added|)
  {
    var all := cs + added;
    forall i, j | 0 <= i < j < |all|
      ensures all[i].title != all[j].title && all[i].id != all[j].id
    {
      if j >= |cs| && i < |cs| {
        assert all[j] == added[j - |cs|];
        TitleIn(cs, all[i]);
      } else if i >= |cs| {
        assert all[i] == added[i - |cs|] && all[j] == added[j - |cs|];
      }
    }
    forall t | t in ts ensures t.categoryId in CategoryIds(all) {
      var c :| c in cs && c.id == t.categoryId;
      assert c in all;
    }
  }

  /** Appending transactions with fresh ids that refer to stored categories keeps the tables valid. */
  lemma AddTransactionsValid(ts: seq<Transaction>, cs: seq<Category>, nextT: nat, nextC: nat, added: seq<Transaction>)
    requires ValidTables(ts, cs, nextT, nextC)
    requires forall i :: 0 <= i < |added| ==> added[i].id == nextT + i
    requires forall t :: t in added ==> t.categoryId in CategoryIds(cs)
    ensures ValidTables(ts + added, cs, nextT + |added|, nextC)
  {
    var all := ts + added;
    forall i, j | 0 <= i < j < |all| ensures all[i].id != all[j].id {
      if j >= |ts| {
        assert all[j] == added[j - |ts|];
        if i >= |ts| { assert all[i] == added[i - |ts|]; }
        else { assert all[i] in ts; }
      }
    }
  }
}
