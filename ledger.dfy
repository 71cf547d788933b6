/** The records shared by every part of the ledger: transactions, categories,
    the error outcomes of the services, and a few sequence helpers. */
module Ledger {

  datatype Option<T> = None | Some(value: T)

  /** The failures the services raise as `AppError`; one constructor per check. */
  datatype Error =
    | InvalidType        // type is neither "income" nor "outcome"
    | MissingField       // title, value, type or category is missing
    | InsufficientIncome // an outcome would exceed the income
    | NotFound           // no transaction with the requested id

  datatype Result<T> = Success(value: T) | Failure(error: Error)

  const INCOME: string := "income"
  const OUTCOME: string := "outcome"

  /** A category record; its title is unique across the category table. */
  datatype Category = Category(id: nat, title: string)

  /** A transaction record. `kind` is the source's `type` column; the
      category relation is held as the id of the referenced category. */
  datatype Transaction = Transaction(id: nat, title: string, value: int, kind: string, categoryId: nat)

  predicate Distinct<T(==)>(s: seq<T>) {
    forall i, j :: 0 <= i < j < |s| ==> s[i] != s[j]
  }

  /** No two categories share a title. */
  predicate UniqueTitles(cs: seq<Category>) {
    forall i, j :: 0 <= i < j < |cs| ==> cs[i].title != cs[j].title
  }

  /** No two transactions share an id. */
  predicate UniqueIds(ts: seq<Transaction>) {
    forall i, j :: 0 <= i < j < |ts| ==> ts[i].id != ts[j].id
  }

  /** The titles of the categories, in order. */
  function Titles(cs: seq<Category>): (r: seq<string>)
    ensures |r| == |cs|
    ensures forall i :: 0 <= i < |cs| ==> r[i] == cs[i].title
  {
    if cs == [] then [] else [cs[0].title] + Titles(cs[1..])
  }

  function CategoryIds(cs: seq<Category>): set<nat> {
    set c | c in cs :: c.id
  }

  function TransactionIds(ts: seq<Transaction>): set<nat> {
    set t | t in ts :: t.id
  }

  lemma TitleIn(cs: seq<Category>, c: Category)
    requires c in cs
    ensures c.title in Titles(cs)
  {
    var i :| 0 <= i < |cs| && cs[i] == c;
    assert Titles(cs)[i] == c.title;
  }

  lemma {:induction false} TitlesAppend(a: seq<Category>, b: seq<Category>)
    ensures Titles(a + b) == Titles(a) + Titles(b)
  {
    if a == [] {
      assert a + b == b;
    } else {
      assert (a + b)[1..] == a[1..] + b;
      TitlesAppend(a[1..], b);
    }
  }

  /** Ids stay unique when a record whose id is new is put in front. */
  lemma UniqueIdsCons(t: Transaction, ts: seq<Transaction>)
    requires UniqueIds(ts)
    requires forall u :: u in ts ==> u.id != t.id
    ensures UniqueIds([t] + ts)
  {
    var r := [t] + ts;
    forall i, j | 0 <= i < j < |r| ensures r[i].id != r[j].id {
      assert r[j] == ts[j - 1];
      if i > 0 { assert r[i] == ts[i - 1]; }
    }
  }

  /** The tail of a list with unique ids has unique ids, none equal to the head's. */
  lemma UniqueIdsTail(ts: seq<Transaction>)
    requires UniqueIds(ts) && ts != []
    ensures UniqueIds(ts[1..])
    ensures forall u :: u in ts[1..] ==> u.id != ts[0].id
  {
    var rest := ts[1..];
    forall i, j | 0 <= i < j < |rest| ensures rest[i].id != rest[j].id {
      assert rest[i] == ts[i + 1] && rest[j] == ts[j + 1];
    }
    forall u | u in rest ensures u.id != ts[0].id {
      var k :| 0 <= k < |rest| && rest[k] == u;
      assert ts[k + 1] == u;
    }
  }
}
