/** `DeleteTransactionService.execute`: look the transaction up by id, fail
    when there is none, otherwise remove it from the transactions table. */
module DeleteTransactionService {
  import opened Ledger
  import opened TransactionStore

  /** The transaction with the given id, if one is stored. */
  function FindById(ts: seq<Transaction>, id: nat): (r: Option<Transaction>)
    ensures r.Some? <==> id in TransactionIds(ts)
    ensures r.Some? ==> r.value in ts && r.value.id == id
  {
    if ts == [] then None
    else if ts[0].id == id then Some(ts[0])
    else
      assert ts == [ts[0]] + ts[1..];
      FindById(ts[1..], id)
  }

  /** `delete(id)`: every record with that id leaves the table; the others
      stay, in their order. */
  function RemoveById(ts: seq<Transaction>, id: nat): (r: seq<Transaction>)
    ensures forall t :: t in r <==> t in ts && t.id != id
  {
    if ts == [] then []
    else
      assert ts == [ts[0]] + ts[1..];
      (if ts[0].id == id then [] else [ts[0]]) + RemoveById(ts[1..], id)
  }

  /** Removing records keeps the remaining ids unique. */
  lemma {:induction false} RemoveKeepsUnique(ts: seq<Transaction>, id: nat)
    requires UniqueIds(ts)
    ensures UniqueIds(RemoveById(ts, id))
  {
    if ts != [] {
      UniqueIdsTail(ts);
      RemoveKeepsUnique(ts[1..], id);
      if ts[0].id != id {
        UniqueIdsCons(ts[0], RemoveById(ts[1..], id));
      }
    }
  }

  /** With unique ids, removing a present id drops exactly one record. */
  lemma {:induction false} RemoveOne(ts: seq<Transaction>, id: nat)
    requires UniqueIds(ts)
    requires id in TransactionIds(ts)
    ensures |RemoveById(ts, id)| == |ts| - 1
  {
    UniqueIdsTail(ts);
    if ts[0].id == id {
      RemoveAbsent(ts[1..], id);
    } else {
      var t :| t in ts && t.id == id;
      assert t in ts[1..];
      RemoveOne(ts[1..], id);
    }
  }

  /** Removing an id no record carries changes nothing. */
  lemma {:induction false} RemoveAbsent(ts: seq<Transaction>, id: nat)
    requires id !in TransactionIds(ts)
    ensures RemoveById(ts, id) == ts
  {
    if ts != [] {
      assert ts[0] in ts;
      assert id !in TransactionIds(ts[1..]) by {
        forall t | t in ts[1..] ensures t.id != id { assert t in ts; }
      }
      RemoveAbsent(ts[1..], id);
    }
  }

  method Execute(store: Store, id: nat) returns (r: Result<()>)
    requires store.Valid()
    modifies store`transactions
    ensures store.Valid()
    ensures r.Failure? <==> id !in TransactionIds(old(store.transactions))
    ensures r.Failure? ==> r.error == NotFound && store.transactions == old(store.transactions)
    ensures r.Success? ==>
              && store.transactions == RemoveById(old(store.transactions), id)
              && |store.transactions| == |old(store.transactions)| - 1
    ensures id !in TransactionIds(store.transactions)
    ensures store.categories == old(store.categories)
  {
    var transaction := FindById(store.transactions, id);
    if transaction.None? {
      return Failure(NotFound);
    }
    RemoveOne(store.transactions, id);
    RemoveKeepsUnique(store.transactions, id);
    store.transactions := RemoveById(store.transactions, id);
    return Success(());
  }
}
