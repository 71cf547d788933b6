/** `ImportTransactionsService.execute` after the CSV reader has split the
    file into lines of cells: drop the header line, trim every cell, skip the
    incomplete rows, create the missing categories in one batch and append
    one transaction per kept row. */
module ImportTransactionsService {
  import opened Ledger
  import opened Balances
  import opened CategoryResolution
  import opened TransactionStore

  /** A kept row (`CSVTransactionDTO`), its value already converted. */
  datatype CsvTransaction = CsvTransaction(title: string, kind: string, value: int, category: string)

  /** The characters `String.prototype.trim` removes: white space and line terminators. */
  predicate IsWhitespace(c: char) {
    || c == '\t' || c == '\n' || c == '\U{000B}' || c == '\U{000C}' || c == '\r' || c == ' '
    || c == '\U{00A0}' || c == '\U{1680}' || ('\U{2000}' <= c <= '\U{200A}')
    || c == '\U{2028}' || c == '\U{2029}' || c == '\U{202F}' || c == '\U{205F}'
    || c == '\U{3000}' || c == '\U{FEFF}'
  }

  predicate IsTrimmed(s: string) {
    s == [] || (!IsWhitespace(s[0]) && !IsWhitespace(s[|s| - 1]))
  }

  /** `cell.trim()`: drops white space from both ends, one character at a time. */
  function Trim(s: string): (r: string)
    ensures |r| <= |s|
    decreases |s|
  {
    if s != [] && IsWhitespace(s[0]) then Trim(s[1..])
    else if s != [] && IsWhitespace(s[|s| - 1]) then Trim(s[..|s| - 1])
    else s
  }

  /** A trimmed cell has no white space at either end. */
  lemma {:induction false} TrimIsTrimmed(s: string)
    ensures IsTrimmed(Trim(s))
    decreases |s|
  {
    if s != [] && IsWhitespace(s[0]) {
      TrimIsTrimmed(s[1..]);
    } else if s != [] && IsWhitespace(s[|s| - 1]) {
      TrimIsTrimmed(s[..|s| - 1]);
    }
  }

  /** `t` sits in `s` at `k`, with only white space before and after it. */
  predicate InfixAmidWhitespace(s: string, t: string, k: nat) {
    && k + |t| <= |s| && t == s[k..k + |t|]
    && (forall i :: 0 <= i < k ==> IsWhitespace(s[i]))
    && (forall i :: k + |t| <= i < |s| ==> IsWhitespace(s[i]))
  }

  /** Putting a white space character in front shifts the infix by one. */
  lemma InfixAfterLeading(s: string, t: string, j: nat)
    requires s != [] && IsWhitespace(s[0])
    requires InfixAmidWhitespace(s[1..], t, j)
    ensures InfixAmidWhitespace(s, t, j + 1)
  {
    var rest := s[1..];
    assert rest[j..j + |t|] == s[j + 1..j + 1 + |t|];
    forall i | 0 <= i < j + 1 ensures IsWhitespace(s[i]) {
      if i > 0 { assert s[i] == rest[i - 1]; }
    }
    forall i | j + 1 + |t| <= i < |s| ensures IsWhitespace(s[i]) {
      assert s[i] == rest[i - 1];
    }
  }

  /** Putting a white space character at the end keeps the infix where it is. */
  lemma InfixBeforeTrailing(s: string, t: string, k: nat)
    requires s != [] && IsWhitespace(s[|s| - 1])
    requires InfixAmidWhitespace(s[..|s| - 1], t, k)
    ensures InfixAmidWhitespace(s, t, k)
  {
    var rest := s[..|s| - 1];
    assert rest[k..k + |t|] == s[k..k + |t|];
    forall i | 0 <= i < k ensures IsWhitespace(s[i]) {
      assert s[i] == rest[i];
    }
    forall i | k + |t| <= i < |s| ensures IsWhitespace(s[i]) {
      if i < |s| - 1 { assert s[i] == rest[i]; }
    }
  }

  /** Trimming keeps the infix `s[k..k + |Trim(s)|]` and removes only white space around it. */
  lemma {:induction false} TrimInfix(s: string) returns (k: nat)
    ensures k + |Trim(s)| <= |s| && Trim(s) == s[k..k + |Trim(s)|]
    ensures forall i :: 0 <= i < k ==> IsWhitespace(s[i])
    ensures forall i :: k + |Trim(s)| <= i < |s| ==> IsWhitespace(s[i])
    decreases |s|
  {
    if s != [] && IsWhitespace(s[0]) {
      var j := TrimInfix(s[1..]);
      InfixAfterLeading(s, Trim(s), j);
      k := j + 1;
    } else if s != [] && IsWhitespace(s[|s| - 1]) {
      k := TrimInfix(s[..|s| - 1]);
      InfixBeforeTrailing(s, Trim(s), k);
    } else {
      k := 0;
    }
  }

  /** Trimming a cell without surrounding white space returns it unchanged. */
  lemma TrimTrimmed(s: string)
    requires IsTrimmed(s)
    ensures Trim(s) == s
  {
  }

  lemma TrimIdempotent(s: string)
    ensures Trim(Trim(s)) == Trim(s)
  {
    TrimIsTrimmed(s);
    TrimTrimmed(Trim(s));
  }

  /** Every cell of a line, trimmed. */
  function TrimCells(line: seq<string>): (r: seq<string>)
    ensures |r| == |line|
  {
    if line == [] then [] else [Trim(line[0])] + TrimCells(line[1..])
  }

  /** Cell `i` of the trimmed line is cell `i` of the line, trimmed. */
  lemma {:induction false} TrimCellsSpec(line: seq<string>)
    ensures forall i :: 0 <= i < |line| ==> TrimCells(line)[i] == Trim(line[i])
  {
    if line != [] {
      TrimCellsSpec(line[1..]);
    }
  }

  /** One parsed line: `[title, type, value, category]` after trimming, or
      nothing when one of the four is missing or empty. */
  function ParseLine(line: seq<string>, toNumber: string -> int): (r: Option<CsvTransaction>)
    ensures |line| < 4 ==> r.None?
    ensures r.Some? ==> r.value.title != "" && r.value.kind != "" && r.value.category != ""
  {
    var cells := TrimCells(line);
    if |cells| < 4 || cells[0] == "" || cells[1] == "" || cells[2] == "" || cells[3] == "" then None
    else Some(CsvTransaction(cells[0], cells[1], toNumber(cells[2]), cells[3]))
  }

  /** A line whose four fields are all present and non-blank. */
  predicate IsComplete(line: seq<string>) {
    |line| >= 4 && forall i :: 0 <= i < 4 ==> Trim(line[i]) != ""
  }

  /** A line is kept exactly when it is complete, and then every field is its trimmed cell. */
  lemma ParseLineSpec(line: seq<string>, toNumber: string -> int)
    ensures ParseLine(line, toNumber).Some? <==> IsComplete(line)
    ensures ParseLine(line, toNumber).Some? ==>
              ParseLine(line, toNumber).value ==
              CsvTransaction(Trim(line[0]), Trim(line[1]), toNumber(Trim(line[2])), Trim(line[3]))
  {
    TrimCellsSpec(line);
  }

  /** A value cell "0" is non-empty, so such a row is kept (only the empty
      string is falsy before `Number` runs). */
  lemma ZeroValueKept(toNumber: string -> int)
    ensures ParseLine(["Salary", "income", "0", "Work"], toNumber) ==
            Some(CsvTransaction("Salary", "income", toNumber("0"), "Work"))
  {
    var line := ["Salary", "income", "0", "Work"];
    TrimTrimmed("Salary");
    TrimTrimmed("income");
    TrimTrimmed("0");
    TrimTrimmed("Work");
    ParseLineSpec(line, toNumber);
  }

  /** Every record the parser keeps has four non-empty trimmed text fields. */
  predicate WellFormed(t: CsvTransaction) {
    t.title != "" && t.kind != "" && t.category != "" &&
    IsTrimmed(t.title) && IsTrimmed(t.kind) && IsTrimmed(t.category)
  }

  /** A record parsed from a line is well formed. */
  lemma ParseLineWellFormed(line: seq<string>, toNumber: string -> int)
    ensures ParseLine(line, toNumber).Some? ==> WellFormed(ParseLine(line, toNumber).value)
  {
    if ParseLine(line, toNumber).Some? {
      TrimCellsSpec(line);
      TrimIsTrimmed(line[0]);
      TrimIsTrimmed(line[1]);
      TrimIsTrimmed(line[3]);
    }
  }

  /** The records the parser pushes for the data lines, in line order. */
  function KeptRows(lines: seq<seq<string>>, toNumber: string -> int): (r: seq<CsvTransaction>)
    ensures |r| <= |lines|
  {
    if lines == [] then []
    else
      var init := KeptRows(lines[..|lines| - 1], toNumber);
      match ParseLine(lines[|lines| - 1], toNumber)
      case Some(t) => init + [t]
      case None => init
  }

  /** The records of one more line follow those of the lines before it. */
  lemma KeptRowsSnoc(lines: seq<seq<string>>, line: seq<string>, toNumber: string -> int)
    ensures KeptRows(lines + [line], toNumber) ==
            KeptRows(lines, toNumber) + (if ParseLine(line, toNumber).Some? then [ParseLine(line, toNumber).value] else [])
  {
    assert (lines + [line])[..|lines|] == lines;
  }

  /** Every kept record has four non-empty, trimmed text fields. */
  lemma {:induction false} KeptRowsWellFormed(lines: seq<seq<string>>, toNumber: string -> int)
    ensures forall t :: t in KeptRows(lines, toNumber) ==> WellFormed(t)
  {
    if lines != [] {
      KeptRowsWellFormed(lines[..|lines| - 1], toNumber);
      ParseLineWellFormed(lines[|lines| - 1], toNumber);
    }
  }

  /** No line the parser accepts is dropped. */
  lemma {:induction false} KeptRowsComplete(lines: seq<seq<string>>, toNumber: string -> int)
    ensures forall i :: 0 <= i < |lines| && ParseLine(lines[i], toNumber).Some? ==>
              ParseLine(lines[i], toNumber).value in KeptRows(lines, toNumber)
  {
    if lines != [] {
      var n := |lines| - 1;
      var init := lines[..n];
      KeptRowsComplete(init, toNumber);
      forall i | 0 <= i < n ensures lines[i] == init[i] { }
    }
  }

  /** Every kept record comes from a line the parser accepts. */
  lemma {:induction false} KeptRowsSound(lines: seq<seq<string>>, toNumber: string -> int)
    ensures forall t :: t in KeptRows(lines, toNumber) ==>
              exists i :: 0 <= i < |lines| && ParseLine(lines[i], toNumber) == Some(t)
  {
    if lines != [] {
      var n := |lines| - 1;
      var init := lines[..n];
      KeptRowsSound(init, toNumber);
      forall t | t in KeptRows(lines, toNumber)
        ensures exists i :: 0 <= i < |lines| && ParseLine(lines[i], toNumber) == Some(t)
      {
        if t in KeptRows(init, toNumber) {
          var i :| 0 <= i < |init| && ParseLine(init[i], toNumber) == Some(t);
          assert lines[i] == init[i];
        } else {
          assert ParseLine(lines[n], toNumber) == Some(t);
        }
      }
    }
  }

  /** The lines after the header: the reader starts at line 2. */
  function Body(lines: seq<seq<string>>): (r: seq<seq<string>>)
    ensures |r| == if lines == [] then 0 else |lines| - 1
    ensures forall i :: 0 <= i < |r| ==> r[i] == lines[i + 1]
  {
    if lines == [] then [] else lines[1..]
  }

  /** The header line never becomes a transaction: whatever it holds, the
      records are the same. */
  lemma HeaderIgnored(header: seq<string>, other: seq<string>, rest: seq<seq<string>>, toNumber: string -> int)
    ensures KeptRows(Body([header] + rest), toNumber) == KeptRows(Body([other] + rest), toNumber)
  {
    assert Body([header] + rest) == rest == Body([other] + rest);
  }

  /** The parse phase: for each data line, trim its cells and, when all four
      fields are present, push the record and its category title. */
  method ParseRows(lines: seq<seq<string>>, toNumber: string -> int)
    returns (transactions: seq<CsvTransaction>, categories: seq<string>)
    ensures transactions == KeptRows(Body(lines), toNumber)
    ensures |categories| == |transactions|
    ensures forall i :: 0 <= i < |transactions| ==> categories[i] == transactions[i].category
  {
    transactions, categories := [], [];
    var rows := Body(lines);
    var i := 0;
    while i < |rows|
      invariant 0 <= i <= |rows|
      invariant transactions == KeptRows(rows[..i], toNumber)
      invariant |categories| == |transactions|
      invariant forall k :: 0 <= k < |transactions| ==> categories[k] == transactions[k].category
    {
      assert rows[..i + 1] == rows[..i] + [rows[i]];
      KeptRowsSnoc(rows[..i], rows[i], toNumber);
      var row := ParseLine(rows[i], toNumber);
      if row.Some? {
        categories := categories + [row.value.category];
        transactions := transactions + [row.value];
      }
      i := i + 1;
    }
    assert rows[..i] == rows;
  }

  /** The row categories as the parse phase collects them. */
  function CategoriesOf(rows: seq<CsvTransaction>): (r: seq<string>)
    ensures |r| == |rows|
    ensures forall i :: 0 <= i < |rows| ==> r[i] == rows[i].category
  {
    if rows == [] then [] else [rows[0].category] + CategoriesOf(rows[1..])
  }

  /** The transaction records built for the rows: one per row, with a fresh
      id and the category the title lookup returns. */
  function Link(rows: seq<CsvTransaction>, finalCategories: seq<Category>, firstId: nat): (r: seq<Transaction>)
    requires forall row :: row in rows ==> row.category in Titles(finalCategories)
    ensures |r| == |rows|
    ensures forall i :: 0 <= i < |rows| ==>
              && r[i] == Transaction(firstId + i, rows[i].title, rows[i].value, rows[i].kind, r[i].categoryId)
              && FindByTitle(finalCategories, rows[i].category) == Some(Category(r[i].categoryId, rows[i].category))
  {
    if rows == [] then []
    else
      var c := FindByTitle(finalCategories, rows[0].category).value;
      [Transaction(firstId, rows[0].title, rows[0].value, rows[0].kind, c.id)]
        + Link(rows[1..], finalCategories, firstId + 1)
  }

  /** Read existing, create missing: read the stored categories named by the
      rows, create the missing titles in one batch, and return new plus
      existing records. */
  method CreateMissingCategories(store: Store, categories: seq<string>) returns (finalCategories: seq<Category>)
    requires store.Valid()
    modifies store`categories, store`nextCategoryId
    ensures store.Valid()
    ensures store.categories == old(store.categories) +
              NewCategories(TitlesToCreate(categories, old(store.categories)), old(store.nextCategoryId))
    ensures finalCategories == FinalCategories(categories, old(store.categories), old(store.nextCategoryId))
    ensures forall x :: x in categories ==> x in Titles(finalCategories)
    ensures forall c :: c in finalCategories ==> c in store.categories
  {
    var existentCategories := WithTitleIn(store.categories, categories);
    var addCategoryTitles := Dedup(Missing(categories, Titles(existentCategories)));
    var newCategories := NewCategories(addCategoryTitles, store.nextCategoryId);
    FinalCategoriesCover(categories, store.categories, store.nextCategoryId);
    NewCategoriesFit(store.transactions, store.categories, store.nextTransactionId, store.nextCategoryId, categories);
    store.categories := store.categories + newCategories;
    store.nextCategoryId := store.nextCategoryId + |newCategories|;
    finalCategories := newCategories + existentCategories;
  }

  method Execute(store: Store, lines: seq<seq<string>>, toNumber: string -> int)
    returns (created: seq<Transaction>)
    requires store.Valid()
    modifies store
    ensures store.Valid()
    // exactly one new transaction per kept row, in row order, appended to the table
    ensures var rows := KeptRows(Body(lines), toNumber);
            && |created| == |rows|
            && store.transactions == old(store.transactions) + created
            && forall i :: 0 <= i < |rows| ==>
                 && created[i].title == rows[i].title && created[i].kind == rows[i].kind
                 && created[i].value == rows[i].value
                 && created[i].id !in TransactionIds(old(store.transactions))
                 && FindByTitle(store.categories, rows[i].category) == Some(Category(created[i].categoryId, rows[i].category))
    // the missing titles are created once each, in one batch
    ensures var rows := KeptRows(Body(lines), toNumber);
            store.categories == old(store.categories) +
              NewCategories(TitlesToCreate(CategoriesOf(rows), old(store.categories)), old(store.nextCategoryId))
    // no balance check: every kept row goes in, and the sums grow by the batch's sums
    ensures store.CurrentBalance().income == old(store.CurrentBalance()).income + SumOf(created, INCOME)
    ensures store.CurrentBalance().outcome == old(store.CurrentBalance()).outcome + SumOf(created, OUTCOME)
  {
    var rows, categories := ParseRows(lines, toNumber);
    created := SaveRows(store, rows, categories);
  }

  /** The write phase of the import, for the parsed rows and their category titles. */
  method SaveRows(store: Store, rows: seq<CsvTransaction>, categories: seq<string>)
    returns (created: seq<Transaction>)
    requires store.Valid()
    requires |categories| == |rows|
    requires forall i :: 0 <= i < |rows| ==> categories[i] == rows[i].category
    modifies store
    ensures store.Valid()
    ensures |created| == |rows|
    ensures store.transactions == old(store.transactions) + created
    ensures forall i :: 0 <= i < |rows| ==>
              && created[i].title == rows[i].title && created[i].kind == rows[i].kind
              && created[i].value == rows[i].value
              && created[i].id !in TransactionIds(old(store.transactions))
              && FindByTitle(store.categories, rows[i].category) == Some(Category(created[i].categoryId, rows[i].category))
    ensures store.categories == old(store.categories) +
              NewCategories(TitlesToCreate(CategoriesOf(rows), old(store.categories)), old(store.nextCategoryId))
    ensures store.CurrentBalance().income == old(store.CurrentBalance()).income + SumOf(created, INCOME)
    ensures store.CurrentBalance().outcome == old(store.CurrentBalance()).outcome + SumOf(created, OUTCOME)
  {
    assert categories == CategoriesOf(rows);
    var finalCategories := CreateMissingCategories(store, categories);
    forall row | row in rows ensures row.category in Titles(finalCategories) {
      var i :| 0 <= i < |rows| && rows[i] == row;
      assert categories[i] == row.category;
    }
    created := SaveTransactions(store, rows, finalCategories);
  }

  /** Link and save: link every row to its category and save them all at once. */
  method SaveTransactions(store: Store, rows: seq<CsvTransaction>, finalCategories: seq<Category>)
    returns (created: seq<Transaction>)
    requires store.Valid()
    requires forall row :: row in rows ==> row.category in Titles(finalCategories)
    requires forall c :: c in finalCategories ==> c in store.categories
    modifies store`transactions, store`nextTransactionId
    ensures store.Valid()
    ensures |created| == |rows|
    ensures store.transactions == old(store.transactions) + created
    ensures forall i :: 0 <= i < |rows| ==>
              && created[i].title == rows[i].title && created[i].kind == rows[i].kind
              && created[i].value == rows[i].value
              && created[i].id !in TransactionIds(old(store.transactions))
              && FindByTitle(store.categories, rows[i].category) == Some(Category(created[i].categoryId, rows[i].category))
    ensures store.CurrentBalance().income == old(store.CurrentBalance()).income + SumOf(created, INCOME)
    ensures store.CurrentBalance().outcome == old(store.CurrentBalance()).outcome + SumOf(created, OUTCOME)
  {
    created := Link(rows, finalCategories, store.nextTransactionId);
    LinkFits(store.categories, finalCategories, rows, created, store.nextTransactionId);
    AddTransactionsValid(store.transactions, store.categories, store.nextTransactionId, store.nextCategoryId, created);
    BalanceAppendAll(store.transactions, created);
    store.transactions := store.transactions + created;
    store.nextTransactionId := store.nextTransactionId + |created|;
  }

  /** Saving the new categories keeps the tables valid. */
  lemma NewCategoriesFit(ts: seq<Transaction>, cs: seq<Category>, nextT: nat, nextC: nat, rowCategories: seq<string>)
    requires ValidTables(ts, cs, nextT, nextC)
    ensures var added := NewCategories(TitlesToCreate(rowCategories, cs), nextC);
            ValidTables(ts, cs + added, nextT, nextC + |added|)
  {
    var titles := TitlesToCreate(rowCategories, cs);
    var added := NewCategories(titles, nextC);
    TitlesToCreateSpec(rowCategories, cs);
    forall i, j | 0 <= i < j < |added| ensures added[i].title != added[j].title {
      assert Titles(added)[i] == titles[i] && Titles(added)[j] == titles[j];
    }
    forall c | c in added ensures c.title !in Titles(cs) {
      TitleIn(added, c);
    }
    AddCategoriesValid(ts, cs, nextT, nextC, added);
  }

  /** Each linked transaction refers to a stored category, the one the store
      holds under the row's category title. */
  lemma LinkFits(cs: seq<Category>, finalCategories: seq<Category>, rows: seq<CsvTransaction>,
                 created: seq<Transaction>, nextT: nat)
    requires UniqueTitles(cs)
    requires forall c :: c in finalCategories ==> c in cs
    requires forall row :: row in rows ==> row.category in Titles(finalCategories)
    requires created == Link(rows, finalCategories, nextT)
    ensures forall t :: t in created ==> t.categoryId in CategoryIds(cs)
    ensures forall i :: 0 <= i < |rows| ==>
              FindByTitle(cs, rows[i].category) == Some(Category(created[i].categoryId, rows[i].category))
  {
    forall i | 0 <= i < |rows|
      ensures created[i].categoryId in CategoryIds(cs)
      ensures FindByTitle(cs, rows[i].category) == Some(Category(created[i].categoryId, rows[i].category))
    {
      var c := Category(created[i].categoryId, rows[i].category);
      assert c in finalCategories;
      FindUnique(cs, c);
    }
    forall t | t in created ensures t.categoryId in CategoryIds(cs) {
      var i :| 0 <= i < |created| && created[i] == t;
    }
  }
}
