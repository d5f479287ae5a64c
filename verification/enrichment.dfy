/** The enrichment join of the dashboard: each reading-list entry, together with the three
    lookups made for it (ratings, work detail, author search), becomes one flat record; the
    batch yields every record or none. The network calls themselves are not modelled: each
    lookup arrives as an `Option`, `None` meaning the request or its JSON decoding failed. */
module Enrichment {
  import opened Wrappers
  import opened Seqs

  /** The `work` object of a reading-log entry. Absent JSON fields are `None`. */
  datatype Work = Work(
    key: string,
    title: Option<string>,
    firstPublishYear: Option<int>,
    authorNames: Option<seq<string>>)

  /** One reading-log entry; `work` is `None` when the entry has no work object. */
  datatype Entry = Entry(work: Option<Work>)

  /** The ratings document; `average` is `None` when the document, its summary or the
      average is missing. */
  datatype RatingData = RatingData(average: Option<real>)

  /** The work-detail document. */
  datatype WorkData = WorkData(subjects: Option<seq<string>>)

  /** One document of the author search. */
  datatype AuthorDoc = AuthorDoc(birthDate: Option<string>, topWork: Option<string>)

  /** The author-search document. */
  datatype AuthorData = AuthorData(docs: Option<seq<AuthorDoc>>)

  /** The three lookups of one entry; `None` is a lookup whose request or decoding failed. */
  datatype Responses = Responses(
    rating: Option<RatingData>,
    work: Option<WorkData>,
    author: Option<AuthorData>)

  /** A number to be shown with two decimals; the text itself (floating-point formatting)
      is not modelled. */
  datatype Fixed2 = Fixed2(value: real)

  /** The flat record shown in the table. `authorName` is `None` when the work lists no author. */
  datatype Record = Record(
    id: nat,
    authorName: Option<string>,
    title: Option<string>,
    firstPublishYear: Option<int>,
    subjects: seq<string>,
    averageRating: Fixed2,
    dob: string,
    topWork: Option<string>)

  /** Shown instead of a missing or empty birth date. */
  const NoData: string := "No Data"

  /** How many subjects a record keeps. */
  const MaxSubjects: nat := 2

  /** The entry can be projected: nothing on the way throws and every lookup succeeded. */
  predicate EntrySucceeds(entry: Entry, resp: Responses) {
    && entry.work.Some?
    && entry.work.value.authorNames.Some?
    && resp.rating.Some?
    && resp.work.Some?
    && resp.author.Some?
  }

  /** `names[0]`, which is `undefined` on an empty list. */
  function FirstAuthor(names: seq<string>): Option<string> {
    if |names| == 0 then None else Some(names[0])
  }

  /** `(average || 0)`: an absent or zero average counts as 0. */
  function RatingOf(r: RatingData): Fixed2 {
    Fixed2(r.average.GetOr(0.0))
  }

  /** `subjects?.slice(0, 2) || []`. */
  function SubjectsOf(w: WorkData): seq<string> {
    match w.subjects
    case None => []
    case Some(s) => if |s| <= MaxSubjects then s else s[..MaxSubjects]
  }

  /** `docs?.[0]`: the first author document, if any. */
  function FirstDoc(a: AuthorData): Option<AuthorDoc> {
    match a.docs
    case None => None
    case Some(ds) => if |ds| == 0 then None else Some(ds[0])
  }

  /** `authorInfo.birth_date || "No Data"`: a missing or empty birth date becomes `NoData`. */
  function DobOf(info: Option<AuthorDoc>): string {
    match info
    case Some(AuthorDoc(Some(d), _)) => if d == "" then NoData else d
    case _ => NoData
  }

  /** `authorInfo.top_work`, with no default. */
  function TopWorkOf(info: Option<AuthorDoc>): Option<string> {
    match info
    case Some(doc) => doc.topWork
    case None => None
  }

  /** What the record at position `position` must hold when its entry succeeded, stated
      field by field against the entry and its lookups. */
  predicate BuiltFrom(rec: Record, entry: Entry, resp: Responses, position: nat)
    requires EntrySucceeds(entry, resp)
  {
    var work, names := entry.work.value, entry.work.value.authorNames.value;
    var avg, subjects := resp.rating.value.average, resp.work.value.subjects;
    var docs := resp.author.value.docs;
    var hasDoc := docs.Some? && |docs.value| > 0;
    && rec.id == position + 1
    && (rec.authorName.Some? <==> |names| > 0)
    && (rec.authorName.Some? ==> rec.authorName.value == names[0])
    && rec.title == work.title
    && rec.firstPublishYear == work.firstPublishYear
    // subjects: the first two of the work's subjects, none when it has none
    && IsPrefix(rec.subjects, subjects.GetOr([]))
    && |rec.subjects| == (if |subjects.GetOr([])| < MaxSubjects then |subjects.GetOr([])| else MaxSubjects)
    // rating: the average when there is one, else 0
    && (avg.Some? ==> rec.averageRating.value == avg.value)
    && (avg.None? ==> rec.averageRating.value == 0.0)
    // birth date: the first document's, unless missing or empty
    && (if hasDoc && docs.value[0].birthDate.Some? && docs.value[0].birthDate.value != ""
        then rec.dob == docs.value[0].birthDate.value
        else rec.dob == NoData)
    && rec.topWork == (if hasDoc then docs.value[0].topWork else None)
  }

  /** `BuiltFrom` pins the record down completely. */
  lemma BuiltFromUnique(r1: Record, r2: Record, entry: Entry, resp: Responses, position: nat)
    requires EntrySucceeds(entry, resp)
    requires BuiltFrom(r1, entry, resp, position) && BuiltFrom(r2, entry, resp, position)
    ensures r1 == r2
  {
  }

  /** The callback of `books.map` for one entry at index `position`. */
  function ProjectEntry(entry: Entry, resp: Responses, position: nat): (r: Option<Record>)
    ensures r.Some? <==> EntrySucceeds(entry, resp)
    ensures r.Some? ==> BuiltFrom(r.value, entry, resp, position)
  {
    if !EntrySucceeds(entry, resp) then None
    else
      var work := entry.work.value;
      var info := FirstDoc(resp.author.value);
      Some(Record(
        position + 1,
        FirstAuthor(work.authorNames.value),
        work.title,
        work.firstPublishYear,
        SubjectsOf(resp.work.value),
        RatingOf(resp.rating.value),
        DobOf(info),
        TopWorkOf(info)))
  }

  /** Every entry succeeds with its own lookups. */
  predicate AllSucceed(books: seq<Entry>, resps: seq<Responses>)
    requires |resps| == |books|
  {
    forall i :: 0 <= i < |books| ==> EntrySucceeds(books[i], resps[i])
  }

  /** The join of `books[k]` with `resps[k]` for every `k`, numbering from `start`. */
  function JoinFrom(books: seq<Entry>, resps: seq<Responses>, start: nat): (r: Option<seq<Record>>)
    requires |resps| == |books|
    ensures r.Some? <==> AllSucceed(books, resps)
    ensures r.Some? ==> |r.value| == |books|
    ensures r.Some? ==> forall k :: 0 <= k < |books| ==>
      EntrySucceeds(books[k], resps[k]) && BuiltFrom(r.value[k], books[k], resps[k], start + k)
    decreases |books|
  {
    if |books| == 0 then Some([])
    else
      match ProjectEntry(books[0], resps[0], start)
      case None => None
      case Some(rec) =>
        match JoinFrom(books[1..], resps[1..], start + 1)
        case None => None
        case Some(rest) => Some([rec] + rest)
  }

  /** `Promise.all(books.map(...))`: every record, in list order, or nothing when any entry fails. */
  function Join(books: seq<Entry>, resps: seq<Responses>): (r: Option<seq<Record>>)
    requires |resps| == |books|
    ensures r.Some? <==> AllSucceed(books, resps)
    ensures r.Some? ==> |r.value| == |books|
    ensures r.Some? ==> forall k :: 0 <= k < |books| ==>
      EntrySucceeds(books[k], resps[k]) && BuiltFrom(r.value[k], books[k], resps[k], k)
  {
    JoinFrom(books, resps, 0)
  }

  /** Record ids are the 1-based positions: they run 1, 2, ..., n in order. */
  lemma JoinNumbersRecords(books: seq<Entry>, resps: seq<Responses>)
    requires |resps| == |books|
    requires Join(books, resps).Some?
    ensures forall k :: 0 <= k < |Join(books, resps).value| ==> Join(books, resps).value[k].id == k + 1
  {
  }

  /** One failing entry anywhere makes the whole batch fail. */
  lemma JoinOneFailureFailsAll(books: seq<Entry>, resps: seq<Responses>, bad: nat)
    requires |resps| == |books|
    requires bad < |books| && !EntrySucceeds(books[bad], resps[bad])
    ensures Join(books, resps) == None
  {
  }
}
