/** The author search: `mergedData.filter(book => book.author_name.toLowerCase().includes(q))`
    for an already lower-cased query `q`. */
module AuthorFilter {
  import opened Wrappers
  import opened Seqs
  import opened JsString
  import opened Enrichment

  /** Every record has an author name, so lower-casing it does not throw. */
  predicate Authored(rs: seq<Record>) {
    forall k :: 0 <= k < |rs| ==> rs[k].authorName.Some?
  }

  /** The record's lower-cased author name contains `lq`. */
  predicate Matches(rec: Record, lq: string) {
    rec.authorName.Some? && Includes(Lower(rec.authorName.value), lq)
  }

  /** `f` keeps, in their order in `rs`, records of `rs` that match `lq` (soundness), and
      every matching record of `rs` is kept (completeness). */
  predicate SelectsMatches(f: seq<Record>, rs: seq<Record>, lq: string) {
    && IsSubsequence(f, rs)
    && (forall x :: x in f ==> Matches(x, lq))
    && (forall k :: 0 <= k < |rs| && Matches(rs[k], lq) ==> rs[k] in f)
  }

  /** The filter; `None` when some record has no author name and the call throws. */
  function FilterByAuthor(rs: seq<Record>, lq: string): (r: Option<seq<Record>>)
    ensures r.Some? <==> Authored(rs)
    ensures r.Some? ==> SelectsMatches(r.value, rs, lq)
    decreases |rs|
  {
    if |rs| == 0 then Some([])
    else if rs[0].authorName.None? then None
    else
      match FilterByAuthor(rs[1..], lq)
      case None => None
      case Some(rest) =>
        assert forall k :: 1 <= k < |rs| ==> rs[k] == rs[1..][k - 1];
        if Matches(rs[0], lq) then Some([rs[0]] + rest) else Some(rest)
  }

  /** The filter keeps every copy of a matching record and no copy of any other, so it is
      exact also when a record occurs more than once. */
  lemma {:induction false} FilterKeepsCopies(rs: seq<Record>, lq: string)
    requires Authored(rs)
    ensures FilterByAuthor(rs, lq).Some?
    ensures forall x :: multiset(FilterByAuthor(rs, lq).value)[x] == (if Matches(x, lq) then multiset(rs)[x] else 0)
    decreases |rs|
  {
    if |rs| > 0 {
      assert Authored(rs[1..]) by {
        assert forall k :: 0 <= k < |rs[1..]| ==> rs[1..][k] == rs[k + 1];
      }
      FilterKeepsCopies(rs[1..], lq);
      assert rs == [rs[0]] + rs[1..];
      assert multiset(rs) == multiset{rs[0]} + multiset(rs[1..]);
    }
  }

  /** Filtering a concatenation filters each part. */
  lemma {:induction false} FilterAppend(a: seq<Record>, b: seq<Record>, lq: string)
    requires Authored(a) && Authored(b)
    ensures FilterByAuthor(a + b, lq).Some?
    ensures FilterByAuthor(a + b, lq).value == FilterByAuthor(a, lq).value + FilterByAuthor(b, lq).value
    decreases |a|
  {
    if |a| == 0 {
      assert a + b == b;
    } else {
      assert (a + b)[1..] == a[1..] + b;
      assert Authored(a[1..]) by {
        assert forall k :: 0 <= k < |a[1..]| ==> a[1..][k] == a[k + 1];
      }
      FilterAppend(a[1..], b, lq);
    }
  }

  /** On one record the filter keeps it exactly when it matches. */
  lemma FilterSingle(x: Record, lq: string)
    requires x.authorName.Some?
    ensures FilterByAuthor([x], lq) == Some(if Matches(x, lq) then [x] else [])
  {
    assert [x][1..] == [];
    assert FilterByAuthor([], lq) == Some([]);
    assert [x] + [] == [x];
  }

  /** Nothing is kept when no author matches. */
  lemma FilterNoMatch(rs: seq<Record>, lq: string)
    requires Authored(rs)
    requires forall k :: 0 <= k < |rs| ==> !Matches(rs[k], lq)
    ensures FilterByAuthor(rs, lq) == Some([])
  {
    var r := FilterByAuthor(rs, lq).value;
    if |r| > 0 {
      assert r[0] in r;
      SubsequenceMembers(r, rs);
      assert false;
    }
  }
}
