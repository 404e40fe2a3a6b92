/** The document collection as the program uses it: insert a document, find the
    documents a filter selects sorted by date, delete one by `_id`. The engine is
    replaced by an in-memory sequence of documents; `Select` and `Find` stand for
    its query evaluation. Also the query `search_by_date_range` builds. */
module Store {
  import opened Wrappers
  import opened Text
  import opened Sorting
  import opened Dates
  import opened Records

  /** A find filter: none, or `{"date": {"$gte": lo, "$lte": hi}}` on the date strings. */
  datatype Query = All | DateRange(lo: string, hi: string)

  predicate Matches(q: Query, d: Doc) {
    match q
    case All => true
    case DateRange(lo, hi) => LexLe(lo, d.rec.date) && LexLe(d.rec.date, hi)
  }

  function DateOf(d: Doc): string {
    d.rec.date
  }

  /** The documents a filter selects, in storage order. */
  function Select(docs: seq<Doc>, q: Query): (r: seq<Doc>)
    ensures forall d :: multiset(r)[d] == if Matches(q, d) then multiset(docs)[d] else 0
    ensures forall d :: d in r <==> d in docs && Matches(q, d)
  {
    if docs == [] then []
    else
      assert docs == [docs[0]] + docs[1..];
      var rest := Select(docs[1..], q);
      if Matches(q, docs[0]) then [docs[0]] + rest else rest
  }

  /** `find(filter).sort("date", 1)`: the selected documents in ascending date
      order; the order among equal dates is the engine's choice. */
  function Find(docs: seq<Doc>, q: Query): (r: seq<Doc>)
    ensures SortedBy(r, DateOf)
    ensures multiset(r) == multiset(Select(docs, q))
  {
    SortBy(Select(docs, q), DateOf)
  }

  /** What every stored document satisfies: an id below the next one the engine
      hands out, a canonical date, and an id no other document has. */
  ghost predicate WellFormed(docs: seq<Doc>, nextId: nat) {
    IdsBelow(docs, nextId) && DatesCanonical(docs) && IdsUnique(docs)
  }

  ghost predicate IdsBelow(docs: seq<Doc>, nextId: nat) {
    forall d :: d in docs ==> d.id < nextId
  }

  ghost predicate DatesCanonical(docs: seq<Doc>) {
    forall d :: d in docs ==> IsCanonical(d.rec.date)
  }

  ghost predicate IdsUnique(docs: seq<Doc>) {
    forall i, j :: 0 <= i < j < |docs| ==> docs[i].id != docs[j].id
  }

  /** An id above every stored one, for a collection the program did not create. */
  function NextFreeId(docs: seq<Doc>): (n: nat)
    ensures forall i :: 0 <= i < |docs| ==> docs[i].id < n
  {
    if docs == [] then 0
    else
      var n := NextFreeId(docs[..|docs| - 1]);
      var last := docs[|docs| - 1].id;
      if n <= last then last + 1 else n
  }

  /** `delete_one({"_id": id})` for every id in ids: the documents that remain, in order. */
  function RemoveIds(docs: seq<Doc>, ids: set<nat>): (r: seq<Doc>)
    ensures forall d :: d in r <==> d in docs && d.id !in ids
    ensures |r| <= |docs|
  {
    if docs == [] then []
    else
      var rest := RemoveIds(docs[1..], ids);
      assert forall d :: d in docs <==> d == docs[0] || d in docs[1..];
      if docs[0].id in ids then rest else [docs[0]] + rest
  }

  lemma {:induction false} RemoveIdsUnique(docs: seq<Doc>, ids: set<nat>)
    requires IdsUnique(docs)
    ensures IdsUnique(RemoveIds(docs, ids))
  {
    if docs != [] {
      var tail := docs[1..];
      assert IdsUnique(tail) by {
        forall i, j | 0 <= i < j < |tail| ensures tail[i].id != tail[j].id {
          assert tail[i] == docs[i + 1] && tail[j] == docs[j + 1];
        }
      }
      RemoveIdsUnique(tail, ids);
      var rest := RemoveIds(tail, ids);
      if docs[0].id !in ids {
        var r := [docs[0]] + rest;
        forall j | 0 < j < |r| ensures r[0].id != r[j].id {
          assert r[j] in tail;
          var k :| 0 <= k < |tail| && tail[k] == r[j];
          assert docs[k + 1] == r[j];
        }
        forall i, j | 0 < i < j < |r| ensures r[i].id != r[j].id {
          assert r[i] == rest[i - 1] && r[j] == rest[j - 1];
        }
      }
    }
  }

  /** Deleting documents keeps the collection well formed. */
  lemma RemoveIdsWellFormed(docs: seq<Doc>, ids: set<nat>, nextId: nat)
    requires WellFormed(docs, nextId)
    ensures WellFormed(RemoveIds(docs, ids), nextId)
  {
    RemoveIdsUnique(docs, ids);
  }

  /** Listing with no filter selects every document. */
  lemma {:induction false} SelectAll(docs: seq<Doc>)
    ensures Select(docs, All) == docs
  {
    if docs != [] {
      SelectAll(docs[1..]);
      assert docs == [docs[0]] + docs[1..];
    }
  }

  /** Listing with no filter shows every stored document and nothing else. */
  lemma ListAllShowsEverything(docs: seq<Doc>)
    ensures forall d :: d in Find(docs, All) <==> d in docs
  {
    SelectAll(docs);
    forall d ensures d in Find(docs, All) <==> d in docs {
      assert d in Find(docs, All) <==> d in multiset(Find(docs, All));
    }
  }

  /** Inserting a document under a fresh id keeps the collection well formed. */
  lemma InsertWellFormed(docs: seq<Doc>, nextId: nat, e: Expense)
    requires WellFormed(docs, nextId) && IsCanonical(e.date)
    ensures WellFormed(docs + [Doc(nextId, e)], nextId + 1)
  {
  }

  /** After inserting e under a fresh id, listing everything shows it exactly once,
      no other document carries its id, and every earlier document is still shown. */
  lemma AddThenListAll(docs: seq<Doc>, nextId: nat, e: Expense)
    requires WellFormed(docs, nextId)
    ensures multiset(Find(docs + [Doc(nextId, e)], All))[Doc(nextId, e)] == 1
    ensures forall d :: d in Find(docs + [Doc(nextId, e)], All) && d.id == nextId ==> d == Doc(nextId, e)
    ensures forall d :: d in docs ==> d in Find(docs + [Doc(nextId, e)], All)
  {
    var added := Doc(nextId, e);
    var all := docs + [added];
    SelectAll(all);
    var ws := Find(all, All);
    assert multiset(ws) == multiset(all);
    assert added !in docs;
    assert multiset(all) == multiset(docs) + multiset{added};
    forall d | d in ws ensures d in all {
      assert d in multiset(ws);
    }
    forall d | d in docs ensures d in ws {
      assert d in multiset(all);
    }
  }

  /** The reasons `search_by_date_range` stops before issuing a query. */
  datatype SearchError = BothDatesRequired | DatesNotIso | FromAfterTo

  /** The checks and the filter of `search_by_date_range`: both fields present
      after stripping, both parsed by strptime, the from-date not after the
      to-date; the filter is an inclusive range on the formatted dates. */
  function RangeQuery(fromText: string, toText: string): (r: Result<Query, SearchError>)
    ensures r == Failure(BothDatesRequired) <==> AllSpace(fromText) || AllSpace(toText)
    ensures r == Failure(DatesNotIso) <==>
      !AllSpace(fromText) && !AllSpace(toText) &&
      (Parse(Strip(fromText)).None? || Parse(Strip(toText)).None?)
    ensures r == Failure(FromAfterTo) <==>
      Parse(Strip(fromText)).Some? && Parse(Strip(toText)).Some? &&
      !DateLe(Parse(Strip(fromText)).value, Parse(Strip(toText)).value)
    ensures r.Success? ==>
      r.value.DateRange? && IsCanonical(r.value.lo) && IsCanonical(r.value.hi) && LexLe(r.value.lo, r.value.hi)
  {
    var f, t := Strip(fromText), Strip(toText);
    if f == [] || t == [] then Failure(BothDatesRequired)
    else
      match (Parse(f), Parse(t))
      case (Some(a), Some(b)) =>
        if !DateLe(a, b) then Failure(FromAfterTo)
        else
          FormatIsCanonical(a);
          FormatIsCanonical(b);
          FormatOrder(a, b);
          Success(DateRange(Format(a), Format(b)))
      case _ => Failure(DatesNotIso)
  }

  /** The string filter of a successful search selects a stored date exactly when
      it lies chronologically between the two dates the user typed, bounds included:
      the datetime check and the string range agree. */
  lemma RangeMatchesChronologically(fromText: string, toText: string, d: Doc)
    requires RangeQuery(fromText, toText).Success?
    requires IsCanonical(d.rec.date)
    ensures Matches(RangeQuery(fromText, toText).value, d) <==>
      DateLe(Parse(Strip(fromText)).value, Parse(d.rec.date).value) &&
      DateLe(Parse(d.rec.date).value, Parse(Strip(toText)).value)
  {
    var a, b := Parse(Strip(fromText)).value, Parse(Strip(toText)).value;
    ParseFormat(a);
    ParseFormat(b);
    CanonicalOrder(Format(a), d.rec.date);
    CanonicalOrder(d.rec.date, Format(b));
  }

  /** On a well-formed collection a successful search selects exactly the
      documents dated from the from-date to the to-date. */
  lemma RangeSelectsChronologically(docs: seq<Doc>, nextId: nat, fromText: string, toText: string)
    requires WellFormed(docs, nextId)
    requires RangeQuery(fromText, toText).Success?
    ensures forall d :: d in Select(docs, RangeQuery(fromText, toText).value) <==>
      d in docs &&
      DateLe(Parse(Strip(fromText)).value, Parse(d.rec.date).value) &&
      DateLe(Parse(d.rec.date).value, Parse(Strip(toText)).value)
  {
    forall d | d in docs
      ensures Matches(RangeQuery(fromText, toText).value, d) <==>
        DateLe(Parse(Strip(fromText)).value, Parse(d.rec.date).value) &&
        DateLe(Parse(d.rec.date).value, Parse(Strip(toText)).value)
    {
      var i :| 0 <= i < |docs| && docs[i] == d;
      RangeMatchesChronologically(fromText, toText, d);
    }
  }
}
