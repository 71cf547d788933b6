# Income/outcome ledger — a Dafny model

This project models the ledger of a small transaction store. The store holds two tables:

- **transactions**: each has an id, a title, a value, a type (`income` or `outcome`) and a reference to one category;
- **categories**: each has an id and a title, and no two categories share a title.

Four operations act on the tables:

- **getBalance** folds the transactions into `{income, outcome, total}`.
- **Create** validates one request and refuses an outcome that the income does not cover. It then finds the category by title, or creates it, and appends one transaction.
- **Import** takes the lines of a CSV file. It drops the header line, trims every cell and skips incomplete rows. It then creates the missing categories in one batch and appends one transaction per kept row. No balance check is made.
- **Delete** looks a transaction up by id, fails if there is none, and removes it otherwise.

Modules:

- `Ledger` (ledger.dfy): records, errors, and sequence helpers.
- `Balances` (balances.dfy): the balance fold and its reference definition as per-type sums.
- `CategoryResolution` (categories.dfy): lookup by title, and the filter chain that picks the titles to create.
- `TransactionStore` (store.dfy): the class `Store`, which holds both tables, and its integrity invariant.
- `CreateTransactionService`, `ImportTransactionsService` and `DeleteTransactionService`: one module per service, each a method on a `Store`.

Amounts are unbounded integers. Generated ids are counters held by the store. The import receives its input as lines already split into cells. `Number(value)` is a function parameter, `toNumber`.

The create service does not reject a negative value. A negative income passes every check and can make the total negative; the lemma `CreateTransactionService.NegativeIncomeOverdraws` shows this.

## Model

| member | source | states |
|---|---|---|
| `Balances.Accumulate` | src/repositories/TransactionsRepository.ts:16-19 | One reduce step moves at most one of income and outcome, by the transaction's value when its type is income or outcome and not at all otherwise, and recomputes `total == income - outcome`. |
| `Balances.GetBalance` | src/repositories/TransactionsRepository.ts:15-26 | The balance of an empty list is `{0, 0, 0}`. After every fold step, and so in the result, `total == income - outcome`. |
| `Balances.BalanceIsSums` | src/repositories/TransactionsRepository.ts:15-18 | `income` is the sum of the values of the `income` transactions and `outcome` is the sum for `outcome`. `total` is their difference. Other types count in neither. |
| `Balances.BalanceAppend` | src/repositories/TransactionsRepository.ts:17-18 | Appending one transaction adds its value to exactly the field named by its type. The other field stays as it was. |
| `Balances.BalanceAppendAll` | src/repositories/TransactionsRepository.ts:15-18 | Appending a batch raises `income` and `outcome` by the batch's per-type sums. |
| `Balances.SumOfPermutation` | src/repositories/TransactionsRepository.ts:15-17 | A per-type sum is the same for any reordering of the transactions. |
| `Balances.BalancePermutation` | src/repositories/TransactionsRepository.ts:15-26 | The balance does not depend on the order of the transactions: any permutation gives the same balance. |
| `CreateTransactionService.IsKnownType` | src/services/CreateTransactionService.ts:22-24 | A type that passes the type check is never empty, so the later missing-type test cannot fire. |
| `CreateTransactionService.Overdraws` | src/services/CreateTransactionService.ts:35-37 | Only an outcome is ever refused. For a balance with `total == income - outcome`, an outcome is refused exactly when its value exceeds the total. |
| `CreateTransactionService.Execute` | src/services/CreateTransactionService.ts:16-61 | It succeeds exactly when the type is known, title, value and category are present, and the balance check passes. It fails with InvalidType exactly when the type is neither income nor outcome. Otherwise it fails with MissingField exactly when the title or category is empty or the value is 0. Otherwise it fails with InsufficientIncome exactly when the request is an outcome with `value + outcome > income`. On any failure the store is unchanged. On success it appends exactly one transaction with the given title, value and type and a fresh id. That transaction references the one category with the requested title, and that category is created only if it was absent. Only the field named by the type moves. A non-negative total stays non-negative unless an income has a negative value. Store integrity is preserved. |
| `CreateTransactionService.FindOrCreateCategory` | src/services/CreateTransactionService.ts:42-51 | If the title is stored, the categories are unchanged and the stored record is returned. Otherwise exactly one category with that title is appended. Either way the lookup now finds the returned record, and titles stay unique. |
| `CreateTransactionService.AdmittedKeepsSolvent` | src/services/CreateTransactionService.ts:34-40 | A transaction that passes the balance check keeps a non-negative total non-negative, provided it is an outcome or its value is non-negative. |
| `CreateTransactionService.OutcomeCheckExample` | src/services/CreateTransactionService.ts:35-39 | With income 100 and outcome 30, an outcome of 80 is refused and an outcome of 70 is accepted. |
| `CreateTransactionService.NegativeIncomeOverdraws` | src/services/CreateTransactionService.ts:26-40 | An income of -10 on an empty ledger passes every check and leaves a total of -10. |
| `CategoryResolution.FindByTitle` | src/services/CreateTransactionService.ts:44-46 | The lookup finds a record exactly when the title is stored, and the record it finds has that title. |
| `CategoryResolution.FindUnique` | src/services/ImportTransactionsService.ts:93-95 | When titles are unique, the lookup returns the one record that carries the title. |
| `CategoryResolution.IndexOf` | src/services/ImportTransactionsService.ts:75 | `indexOf` is -1 exactly when the value is absent. Otherwise it is the first position that holds the value. |
| `CategoryResolution.FirstOccurrencesFrom` | src/services/ImportTransactionsService.ts:75 | From position `i` on, it keeps a title exactly when its first position in the whole list is at or after `i`, and keeps none twice. |
| `CategoryResolution.Dedup` | src/services/ImportTransactionsService.ts:75 | The first-occurrence filter keeps exactly the titles of its input, and none of them twice. |
| `CategoryResolution.Missing` | src/services/ImportTransactionsService.ts:72-73 | It keeps exactly the titles that are not among the existing ones. |
| `CategoryResolution.WithTitleIn` | src/services/ImportTransactionsService.ts:59-64 | It selects exactly the stored categories whose title is among the row categories. |
| `CategoryResolution.WithTitleInUnique` | src/services/ImportTransactionsService.ts:59-64 | The selected categories keep unique titles. |
| `CategoryResolution.NewCategories` | src/services/ImportTransactionsService.ts:78-80 | It builds one record per title to create, in order, with consecutive fresh ids. |
| `CategoryResolution.TitlesToCreate` | src/services/ImportTransactionsService.ts:67-75 | The titles to create come from the row categories, and none repeats. |
| `CategoryResolution.TitlesToCreateSpec` | src/services/ImportTransactionsService.ts:67-75 | The titles to create contain no duplicate and no stored title. They contain every row category that is not stored. |
| `CategoryResolution.FinalCategories` | src/services/ImportTransactionsService.ts:85 | New plus existing records: every one carries the title of some row category. |
| `CategoryResolution.FinalCategoriesCover` | src/services/ImportTransactionsService.ts:85-96 | Every row category has a record among the new plus existing categories, so `find` never returns undefined. Their titles are unique. |
| `CategoryResolution.ResolveIdempotent` | src/services/ImportTransactionsService.ts:67-82 | After one batch, resolving the same row categories again creates nothing. |
| `ImportTransactionsService.Trim` | src/services/ImportTransactionsService.ts:41-43 | Trimming never lengthens a cell. |
| `ImportTransactionsService.TrimIsTrimmed` | src/services/ImportTransactionsService.ts:41-43 | A trimmed cell has no white space at either end. |
| `ImportTransactionsService.TrimInfix` | src/services/ImportTransactionsService.ts:41-43 | Trimming keeps an infix of the cell and removes only white space before and after it. |
| `ImportTransactionsService.TrimTrimmed` | src/services/ImportTransactionsService.ts:41-43 | Trimming a cell without surrounding white space returns it unchanged. |
| `ImportTransactionsService.TrimIdempotent` | src/services/ImportTransactionsService.ts:41-43 | Trimming twice is the same as trimming once. |
| `ImportTransactionsService.TrimCells` | src/services/ImportTransactionsService.ts:41-43 | The trimmed line has one cell per cell of the line. |
| `ImportTransactionsService.TrimCellsSpec` | src/services/ImportTransactionsService.ts:41-43 | Cell `i` of the trimmed line is cell `i` of the line, trimmed. |
| `ImportTransactionsService.ParseLine` | src/services/ImportTransactionsService.ts:41-48 | A line with fewer than four cells gives no record. A record it gives has non-empty title, type and category. |
| `ImportTransactionsService.ParseLineSpec` | src/services/ImportTransactionsService.ts:41-48 | A line is kept exactly when it has four cells that are all non-empty after trimming. The kept record holds the trimmed title, type and category and the converted trimmed value. |
| `ImportTransactionsService.ZeroValueKept` | src/services/ImportTransactionsService.ts:45 | A row whose value cell is `"0"` is kept. |
| `ImportTransactionsService.ParseLineWellFormed` | src/services/ImportTransactionsService.ts:41-48 | A record parsed from a line has non-empty, trimmed title, type and category. |
| `ImportTransactionsService.KeptRows` | src/services/ImportTransactionsService.ts:39-49 | The records pushed for the data lines, in line order; there are never more records than lines. |
| `ImportTransactionsService.KeptRowsWellFormed` | src/services/ImportTransactionsService.ts:41-48 | Every kept record has non-empty, trimmed title, type and category. |
| `ImportTransactionsService.KeptRowsComplete` | src/services/ImportTransactionsService.ts:39-49 | No line the parser accepts is skipped: its record is among those kept. With `ParseLineSpec`, every complete line is kept. |
| `ImportTransactionsService.KeptRowsSound` | src/services/ImportTransactionsService.ts:39-49 | Every kept record is the record the parser makes from some data line, so (by `ParseLineSpec`) from a complete line. |
| `ImportTransactionsService.Body` | src/services/ImportTransactionsService.ts:27-30 | The reader starts at line 2: the data lines are exactly the lines after the first, in order. |
| `ImportTransactionsService.HeaderIgnored` | src/services/ImportTransactionsService.ts:27-30 | The first line never becomes a record: replacing it changes nothing. |
| `ImportTransactionsService.ParseRows` | src/services/ImportTransactionsService.ts:35-52 | The parse loop pushes exactly the records of the kept data lines, in line order. It pushes one category title per record, at the same position. |
| `ImportTransactionsService.CategoriesOf` | src/services/ImportTransactionsService.ts:47 | One category title per record, at the same position as the record. |
| `ImportTransactionsService.Link` | src/services/ImportTransactionsService.ts:88-97 | It builds one transaction per row, with the row's title, type and value and a fresh id. Each references the category that `find` returns for the row's category title. |
| `ImportTransactionsService.CreateMissingCategories` | src/services/ImportTransactionsService.ts:55-85 | It appends exactly the titles to create, as fresh records. It returns new plus existing records, which cover every row category and are all stored. Store integrity is preserved. |
| `ImportTransactionsService.SaveTransactions` | src/services/ImportTransactionsService.ts:88-100 | It appends exactly one transaction per row, with fresh ids, each referencing the stored category with the row's title. The balance grows by the batch's per-type sums. |
| `ImportTransactionsService.SaveRows` | src/services/ImportTransactionsService.ts:55-100 | The write phase for the parsed rows: the missing titles are created once each, one transaction per row is appended in row order and references the stored category with the row's title, the balance grows by the batch's per-type sums, and store integrity is preserved. |
| `ImportTransactionsService.Execute` | src/services/ImportTransactionsService.ts:22-106 | The number of created transactions equals the number of kept rows, and they are appended in row order. Each created transaction matches its row and references the stored category with the row's title. Categories are extended only by the deduplicated missing titles. No balance check is made: income and outcome grow by the batch's sums. Store integrity is preserved. |
| `ImportTransactionsService.NewCategoriesFit` | src/services/ImportTransactionsService.ts:78-82 | Saving the titles to create keeps category titles and ids unique. |
| `ImportTransactionsService.LinkFits` | src/services/ImportTransactionsService.ts:88-100 | Every linked transaction references a stored category: the one that carries the row's category title. |
| `TransactionStore.Store.constructor` | src/repositories/TransactionsRepository.ts:11-14 | A new store holds no transactions and no categories and satisfies the integrity invariant: unique category titles, unique ids in both tables, every transaction referring to a stored category. |
| `TransactionStore.Store.CurrentBalance` | src/services/CreateTransactionService.ts:34 | The balance the create service reads: `{0, 0, 0}` for an empty table, and always `total == income - outcome`. |
| `TransactionStore.AddCategoriesValid` | src/services/CreateTransactionService.ts:48-51 | Adding categories with fresh ids and new, distinct titles keeps the tables' integrity. |
| `TransactionStore.AddTransactionsValid` | src/services/CreateTransactionService.ts:53-59 | Appending transactions with fresh ids that reference stored categories keeps the tables' integrity. |
| `DeleteTransactionService.FindById` | src/services/DeleteTransactionService.ts:13-15 | The lookup finds a record exactly when the id is stored, and the record it finds has that id. |
| `DeleteTransactionService.RemoveById` | src/services/DeleteTransactionService.ts:21 | What remains is exactly the transactions whose id differs from the one deleted. |
| `DeleteTransactionService.RemoveKeepsUnique` | src/services/DeleteTransactionService.ts:21 | Removal keeps transaction ids unique. |
| `DeleteTransactionService.RemoveOne` | src/services/DeleteTransactionService.ts:13-21 | With unique ids, deleting a present id removes exactly one record. |
| `DeleteTransactionService.RemoveAbsent` | src/services/DeleteTransactionService.ts:17-19 | Removing an id that no record carries changes nothing. |
| `DeleteTransactionService.Execute` | src/services/DeleteTransactionService.ts:11-22 | It fails with NotFound exactly when no transaction has the id, and then the table is unchanged. Otherwise it removes that transaction and nothing else: one record fewer, all others kept in order. Afterwards no transaction has the id. The categories are unchanged and store integrity is preserved. |

## Left out

- Reading the file: the read stream, `pipe`, the `'data'` and `'end'` events and deleting the uploaded file with `unlink`. These are I/O. The import starts from the lines the CSV reader produced.
- The CSV tokenisation of `csv-parse`: quoting, escaping, and any check it makes on record length. It is a foreign library. Only its delimiter and its start at line 2 are visible, and `Body` models the start at line 2.
- `Number(value)` and floating-point amounts. Values are unbounded integers, and the conversion is the parameter `toNumber`. A NaN value cannot be represented, and neither can the falsiness of NaN in the create check.
- The storage layer: TypeORM `find`, `findOne`, `create`, `save`, `delete` and `In`, and the query `In([])` on an empty list. These are replaced by sequence operations. Generated uuids are counters in the store. Creation timestamps are not modelled.
- Storage failures. Every save succeeds, so the model has no PersistenceError and no partial batch.
- Concurrency: two creates racing on the balance check or on creating a category, and the un-awaited `delete`. The model is sequential.
- Error messages and HTTP status codes. Each check has one error constructor.
- src/config/upload.ts: the upload storage with a random file-name prefix. It is I/O and randomness.
- CreateTransactionService.Execute: total >= 0 is guaranteed only when the request is an outcome or has a non-negative value, because the code accepts a negative income value (see `NegativeIncomeOverdraws`).
