/** Concrete runs of the page that document its observable behaviour. */
module Scenarios {
  import opened Wrappers
  import opened JsString
  import opened Enrichment
  import opened AuthorFilter
  import App
  import Dashboard

  function SampleWork(key: string, author: string): Work {
    Work(key, Some("A title"), Some(1954), Some([author]))
  }

  const AllFound: Responses :=
    Responses(Some(RatingData(Some(4.0))), Some(WorkData(Some(["Fantasy"]))), Some(AuthorData(Some([]))))

  /** Three entries whose second work lookup fails: nothing is merged and loading stays on. */
  lemma SecondLookupFailsWholeBatch()
    ensures
      var books := [Entry(Some(SampleWork("/works/1", "A"))), Entry(Some(SampleWork("/works/2", "B"))),
                    Entry(Some(SampleWork("/works/3", "C")))];
      var failed := AllFound.(work := None);
      var events := [Dashboard.ReadingListLoaded(books), Dashboard.LookupsSettled([AllFound, failed, AllFound])];
      && Dashboard.Replayable(Dashboard.Initial, events)
      && Dashboard.Run(Dashboard.Initial, events).app.loading
      && Dashboard.Run(Dashboard.Initial, events).app.merged == []
      && Dashboard.Run(Dashboard.Initial, events).app.filtered == []
  {
    var books := [Entry(Some(SampleWork("/works/1", "A"))), Entry(Some(SampleWork("/works/2", "B"))),
                  Entry(Some(SampleWork("/works/3", "C")))];
    var failed := AllFound.(work := None);
    var d1 := Dashboard.Step(Dashboard.Initial, Dashboard.ReadingListLoaded(books));
    assert !AllSucceed(books, [AllFound, failed, AllFound]) by {
      assert !EntrySucceeds(books[1], [AllFound, failed, AllFound][1]);
    }
    Dashboard.RunPair(Dashboard.Initial, Dashboard.ReadingListLoaded(books), Dashboard.LookupsSettled([AllFound, failed, AllFound]));
  }

  function AuthoredBy(id: nat, author: string): Record {
    Record(id, Some(author), None, None, [], Fixed2(0.0), NoData, None)
  }

  /** A string missing one of `t`'s characters does not include `t`. */
  lemma MissingCharNotIncluded(s: string, t: string, c: char)
    requires c in t && c !in s
    ensures !Includes(s, t)
  {
    IncludesIffOccurs(s, t);
  }

  /** Lower-casing produces an 'm' only from 'm' or 'M'. */
  lemma LowerNoM(s: string)
    requires 'm' !in s && 'M' !in s
    ensures 'm' !in Lower(s)
  {
  }

  lemma LowerSmith(s: string, i: int)
    requires 0 <= i && i + 5 <= |s| && s[i..i + 5] == "Smith"
    ensures OccursAt(Lower(s), "smith", i)
  {
    LowerSlice(s, i, i + 5);
    assert Lower("Smith") == "smith";
  }

  // The records and the query below are parameters fixed by `requires` rather than literals: with literal
  // arguments the verifier evaluates `Lower` and `Includes` character by character, which
  // is far more expensive than the short proofs given here.

  lemma LowerSmithWord(q: string)
    requires q == "Smith"
    ensures Lower(q) == "smith"
  {
  }

  lemma JohnSmithMatches(r: Record)
    requires r == AuthoredBy(1, "John Smith")
    ensures Matches(r, "smith")
  {
    LowerSmith("John Smith", 5);
    IncludesIffOccurs(Lower("John Smith"), "smith");
  }

  lemma AliceSmithsonMatches(r: Record)
    requires r == AuthoredBy(3, "Alice Smithson")
    ensures Matches(r, "smith")
  {
    LowerSmith("Alice Smithson", 6);
    IncludesIffOccurs(Lower("Alice Smithson"), "smith");
  }

  lemma JaneDoeDoesNotMatch(r: Record)
    requires r == AuthoredBy(2, "Jane Doe")
    ensures !Matches(r, "smith")
  {
    LowerNoM("Jane Doe");
    MissingCharNotIncluded(Lower("Jane Doe"), "smith", 'm');
  }

  /** Filtering three authored records of which the middle one does not match keeps the other two. */
  lemma FilterSkipsMiddle(a: Record, b: Record, c: Record, lq: string)
    requires a.authorName.Some? && b.authorName.Some? && c.authorName.Some?
    requires Matches(a, lq) && !Matches(b, lq) && Matches(c, lq)
    ensures FilterByAuthor([a, b, c], lq) == Some([a, c])
  {
    FilterSingle(c, lq);
    assert [b, c][1..] == [c];
    assert FilterByAuthor([b, c], lq) == Some([c]);
    assert [a, b, c][1..] == [b, c];
    assert [a] + [c] == [a, c];
  }

  /** Searching for "Smith" shows "John Smith" and "Alice Smithson" but not "Jane Doe". */
  lemma SmithQuery(st: App.AppState, query: string, john: Record, jane: Record, alice: Record)
    requires query == "Smith"
    requires john == AuthoredBy(1, "John Smith")
    requires jane == AuthoredBy(2, "Jane Doe")
    requires alice == AuthoredBy(3, "Alice Smithson")
    requires st.merged == [john, jane, alice]
    ensures App.HandleSearch(st, query).filtered == [john, alice]
  {
    LowerSmithWord(query);
    JohnSmithMatches(john);
    JaneDoeDoesNotMatch(jane);
    AliceSmithsonMatches(alice);
    FilterSkipsMiddle(john, jane, alice, "smith");
  }
}
