/** Category resolution: looking a category up by title, and the filter chain
    the bulk import uses to decide which titles it has to create. */
module CategoryResolution {
  import opened Ledger

  /** The category whose title is `title`, the first one if several match;
      the lookup both services make by category title. */
  function FindByTitle(cs: seq<Category>, title: string): (r: Option<Category>)
    ensures r.Some? <==> title in Titles(cs)
    ensures r.Some? ==> r.value in cs && r.value.title == title
  {
    if cs == [] then None
    else if cs[0].title == title then Some(cs[0])
    else FindByTitle(cs[1..], title)
  }

  /** With unique titles, the lookup returns the one record that has the title. */
  lemma {:induction false} FindUnique(cs: seq<Category>, c: Category)
    requires UniqueTitles(cs)
    requires c in cs
    ensures FindByTitle(cs, c.title) == Some(c)
  {
    if cs[0] != c {
      var k :| 0 <= k < |cs[1..]| && cs[1..][k] == c;
      assert cs[0].title != cs[k + 1].title;
      FindUnique(cs[1..], c);
    }
  }

  /** `Array.prototype.indexOf`: the first position of `v`, or -1. */
  function IndexOf(s: seq<string>, v: string): (i: int)
    ensures -1 <= i < |s|
    ensures i == -1 <==> v !in s
    ensures 0 <= i ==> s[i] == v && v !in s[..i]
  {
    if s == [] then -1
    else if s[0] == v then 0
    else var j := IndexOf(s[1..], v); if j == -1 then -1 else j + 1
  }

  /** The first-occurrence filter over the positions from `i` on: keeps a
      title where its first position in the whole list is the current one. */
  function FirstOccurrencesFrom(self: seq<string>, i: nat): (r: seq<string>)
    requires i <= |self|
    ensures forall x :: x in r <==> x in self[i..] && i <= IndexOf(self, x)
    ensures Distinct(r)
    decreases |self| - i
  {
    if i == |self| then []
    else
      var rest := FirstOccurrencesFrom(self, i + 1);
      assert self[i..] == [self[i]] + self[i + 1..];
      if IndexOf(self, self[i]) == i then [self[i]] + rest else rest
  }

  /** The second filter of the import: keeps the first occurrence of every title. */
  function Dedup(s: seq<string>): (r: seq<string>)
    ensures forall x :: x in r <==> x in s
    ensures Distinct(r)
  {
    assert s[0..] == s;
    FirstOccurrencesFrom(s, 0)
  }

  /** The first filter of the import: the titles that are not among `existing`. */
  function Missing(titles: seq<string>, existing: seq<string>): (r: seq<string>)
    ensures forall x :: x in r <==> x in titles && x !in existing
  {
    if titles == [] then []
    else
      assert titles == [titles[0]] + titles[1..];
      (if titles[0] in existing then [] else [titles[0]]) + Missing(titles[1..], existing)
  }

  /** The stored categories whose title is one of `titles`, in table order. */
  function WithTitleIn(cs: seq<Category>, titles: seq<string>): (r: seq<Category>)
    ensures forall c :: c in r <==> c in cs && c.title in titles
  {
    if cs == [] then []
    else
      assert cs == [cs[0]] + cs[1..];
      (if cs[0].title in titles then [cs[0]] else []) + WithTitleIn(cs[1..], titles)
  }

  /** Selecting stored categories keeps their titles unique. */
  lemma {:induction false} WithTitleInUnique(cs: seq<Category>, titles: seq<string>)
    requires UniqueTitles(cs)
    ensures UniqueTitles(WithTitleIn(cs, titles))
  {
    if cs != [] {
      var rest := WithTitleIn(cs[1..], titles);
      WithTitleInUnique(cs[1..], titles);
      if cs[0].title in titles {
        var r := [cs[0]] + rest;
        forall i, j | 0 <= i < j < |r| ensures r[i].title != r[j].title {
          if i == 0 {
            assert r[j] in cs[1..];
            var m :| 0 <= m < |cs[1..]| && cs[1..][m] == r[j];
            assert cs[0].title != cs[m + 1].title;
          } else {
            assert r[i] == rest[i - 1] && r[j] == rest[j - 1];
          }
        }
      }
    }
  }

  /** The records `create` builds for the titles to add; each gets a fresh id. */
  function NewCategories(titles: seq<string>, firstId: nat): (r: seq<Category>)
    ensures Titles(r) == titles
    ensures forall i :: 0 <= i < |r| ==> r[i].id == firstId + i
  {
    if titles == [] then []
    else
      var rest := NewCategories(titles[1..], firstId + 1);
      TitlesAppend([Category(firstId, titles[0])], rest);
      [Category(firstId, titles[0])] + rest
  }

  /** The titles the import creates: the row categories that are not in the
      store, each once. */
  function TitlesToCreate(rowCategories: seq<string>, stored: seq<Category>): (r: seq<string>)
    ensures Distinct(r)
    ensures forall x :: x in r ==> x in rowCategories
  {
    Dedup(Missing(rowCategories, Titles(WithTitleIn(stored, rowCategories))))
  }

  /** Every title to create comes from the rows, none is already stored, none
      repeats, and every row title that is not stored is among them. */
  lemma TitlesToCreateSpec(rowCategories: seq<string>, stored: seq<Category>)
    ensures Distinct(TitlesToCreate(rowCategories, stored))
    ensures forall x :: x in TitlesToCreate(rowCategories, stored) <==>
                        x in rowCategories && x !in Titles(stored)
  {
    var existent := WithTitleIn(stored, rowCategories);
    forall x | x in rowCategories
      ensures x in Titles(existent) <==> x in Titles(stored)
    {
      if x in Titles(existent) {
        var k :| 0 <= k < |existent| && Titles(existent)[k] == x;
        TitleIn(stored, existent[k]);
      }
      if x in Titles(stored) {
        var k :| 0 <= k < |stored| && Titles(stored)[k] == x;
        TitleIn(existent, stored[k]);
      }
    }
  }

  /** The categories the rows are linked against: the new records first, then the stored ones the rows name. */
  function FinalCategories(rowCategories: seq<string>, stored: seq<Category>, firstId: nat): (r: seq<Category>)
    ensures forall c :: c in r ==> c.title in rowCategories
  {
    var created := NewCategories(TitlesToCreate(rowCategories, stored), firstId);
    assert forall c :: c in created ==> c.title in rowCategories by {
      forall c | c in created ensures c.title in rowCategories {
        TitleIn(created, c);
      }
    }
    created + WithTitleIn(stored, rowCategories)
  }

  /** Every row category has a record among the final categories, so the
      `find` that links a row never comes back empty; and their titles are unique. */
  lemma FinalCategoriesCover(rowCategories: seq<string>, stored: seq<Category>, firstId: nat)
    requires UniqueTitles(stored)
    ensures forall x :: x in rowCategories ==> x in Titles(FinalCategories(rowCategories, stored, firstId))
    ensures UniqueTitles(FinalCategories(rowCategories, stored, firstId))
  {
    var added := TitlesToCreate(rowCategories, stored);
    var existent := WithTitleIn(stored, rowCategories);
    TitlesToCreateSpec(rowCategories, stored);
    WithTitleInUnique(stored, rowCategories);
    TitlesAppend(NewCategories(added, firstId), existent);
    forall x | x in rowCategories
      ensures x in Titles(FinalCategories(rowCategories, stored, firstId))
    {
      if x in Titles(stored) {
        var k :| 0 <= k < |stored| && Titles(stored)[k] == x;
        TitleIn(existent, stored[k]);
      }
    }
    var f := FinalCategories(rowCategories, stored, firstId);
    var nc := NewCategories(added, firstId);
    forall i, j | 0 <= i < j < |f| ensures f[i].title != f[j].title {
      assert Titles(f)[i] == f[i].title && Titles(f)[j] == f[j].title;
      if j < |added| {
        assert f[i].title == added[i] && f[j].title == added[j];
      } else if i >= |added| {
        assert f[i] == existent[i - |added|] && f[j] == existent[j - |added|];
      } else {
        assert f[i].title == added[i];
        TitleIn(stored, existent[j - |added|]);
      }
    }
  }

  /** Resolving the same titles again creates nothing: after one batch every
      row title is stored. */
  lemma ResolveIdempotent(rowCategories: seq<string>, stored: seq<Category>, firstId: nat)
    ensures var after := stored + NewCategories(TitlesToCreate(rowCategories, stored), firstId);
            TitlesToCreate(rowCategories, after) == []
  {
    var added := NewCategories(TitlesToCreate(rowCategories, stored), firstId);
    var after := stored + added;
    TitlesToCreateSpec(rowCategories, stored);
    TitlesToCreateSpec(rowCategories, after);
    TitlesAppend(stored, added);
  }
}
