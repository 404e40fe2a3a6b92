/** The window's state without its widgets: the collection it talks to, the
    records currently shown (`current_records`) and the total label under the
    table. The handlers that change state (adding, listing, searching, deleting)
    are methods of `ExpenseApp` and keep `Valid()`; exporting and charting only
    read the shown records and are `Export.ExportData`,
    `Aggregation.GraphByDate` and `Aggregation.GraphByCategory` applied to them. */
module Ledger {
  import opened Wrappers
  import opened Text
  import opened Sorting
  import opened Dates
  import opened Amounts
  import opened Records
  import opened Store
  import opened Aggregation

  /** The text of the total label for a given sum. */
  function TotalLabel(total: int): string {
    "Total: " + FormatCents(total)
  }

  /** The label names the total and shows a number that reads back as it. */
  lemma TotalLabelReadsBack(total: int)
    ensures var s := TotalLabel(total);
      |s| > 7 && s[..7] == "Total: " && ParseAmount(s[7..]) == Some(total)
  {
    AmountRoundTrip(total);
    assert TotalLabel(total)[7..] == FormatCents(total);
  }

  /** Deleting no ids keeps every document. */
  lemma {:induction false} RemoveNoIds(docs: seq<Doc>)
    ensures RemoveIds(docs, {}) == docs
  {
    if docs != [] {
      RemoveNoIds(docs[1..]);
      assert docs == [docs[0]] + docs[1..];
    }
  }

  /** Deleting the ids in `ids` one after another removes the same documents as
      deleting them all at once. */
  lemma {:induction false} RemoveIdsTwice(docs: seq<Doc>, ids: set<nat>, more: set<nat>)
    ensures RemoveIds(RemoveIds(docs, ids), more) == RemoveIds(docs, ids + more)
  {
    if docs != [] {
      RemoveIdsTwice(docs[1..], ids, more);
      if docs[0].id !in ids {
        var r := [docs[0]] + RemoveIds(docs[1..], ids);
        assert r[1..] == RemoveIds(docs[1..], ids);
      }
    }
  }

  /** The ids a delete batch removes: every selected id whose delete did not raise. */
  function Deleted(selection: seq<nat>, failing: set<nat>): (ids: set<nat>)
    ensures forall id :: id in ids <==> id in selection && id !in failing
  {
    set id | id in selection && id !in failing
  }

  lemma DeletedStep(selection: seq<nat>, i: int, failing: set<nat>)
    requires 0 <= i < |selection|
    ensures Deleted(selection[..i + 1], failing) ==
      Deleted(selection[..i], failing) + (if selection[i] in failing then {} else {selection[i]})
  {
  }

  /** How `delete_selected` ends: nothing selected, the confirmation declined,
      or a batch attempted, listing the ids whose delete raised. */
  datatype DeleteOutcome = NothingSelected | Declined | Attempted(failed: seq<nat>)

  class ExpenseApp {
    /** The expense collection. */
    var docs: seq<Doc>
    /** The `_id` the engine hands out to the next inserted document. */
    var nextId: nat
    /** `current_records`: what the table shows. */
    var records: seq<Doc>
    /** The total label's text. */
    var totalText: string
    /** The filter the shown records were found with. */
    ghost var shown: Query

    /** The shown records are the stored documents the last filter selects, in
        ascending date order, and the label shows their total. */
    ghost predicate Valid()
      reads this
    {
      && WellFormed(docs, nextId)
      && SortedBy(records, DateOf)
      && multiset(records) == multiset(Select(docs, shown))
      && totalText == TotalLabel(SumAmounts(records))
    }

    /** Opening the window on an existing collection lists all of it. The
        collection's ids are distinct and its dates canonical, as every document
        this program inserts has them. */
    constructor (stored: seq<Doc>)
      requires IdsUnique(stored) && DatesCanonical(stored)
      ensures Valid()
      ensures docs == stored && shown == All
      ensures records == Find(stored, All)
    {
      docs := stored;
      nextId := NextFreeId(stored);
      records := [];
      totalText := TotalLabel(0);
      shown := All;
      new;
      LoadRecords(All);
    }

    /** `update_total`: recompute the label from the shown records. */
    method UpdateTotal()
      modifies this`totalText
      ensures totalText == TotalLabel(SumAmounts(records))
      ensures docs == old(docs) && nextId == old(nextId) && records == old(records) && shown == old(shown)
    {
      var total := Total(records);
      totalText := TotalLabel(total);
    }

    /** `load_records`: show the documents `q` selects, sorted by date. */
    method LoadRecords(q: Query)
      requires WellFormed(docs, nextId)
      modifies this`records, this`shown, this`totalText
      ensures Valid()
      ensures docs == old(docs) && nextId == old(nextId) && shown == q
      ensures records == Find(docs, q)
    {
      records := Find(docs, q);
      shown := q;
      UpdateTotal();
    }

    /** `add_expense`: validate the four fields; on the first failure show the
        warning and change nothing, otherwise insert exactly one document and
        list everything again. */
    method AddExpense(descText: string, amountText: string, categoryText: string, dateText: string)
      returns (r: Result<nat, ValidationError>)
      requires Valid()
      modifies this
      ensures Valid()
      ensures Validate(descText, amountText, categoryText, dateText).Failure? ==>
        && r == Failure(Validate(descText, amountText, categoryText, dateText).error)
        && docs == old(docs) && nextId == old(nextId)
        && records == old(records) && totalText == old(totalText) && shown == old(shown)
      ensures Validate(descText, amountText, categoryText, dateText).Success? ==>
        var added := Doc(old(nextId), Validate(descText, amountText, categoryText, dateText).value);
        && r == Success(old(nextId))
        && docs == old(docs) + [added] && nextId == old(nextId) + 1
        && shown == All && records == Find(docs, All)
        && multiset(records)[added] == 1
        && (forall d :: d in old(docs) ==> d in records)
    {
      match Validate(descText, amountText, categoryText, dateText)
      case Failure(e) =>
        r := Failure(e);
      case Success(e) =>
        var id := nextId;
        InsertWellFormed(docs, nextId, e);
        AddThenListAll(docs, nextId, e);
        docs := docs + [Doc(id, e)];
        nextId := nextId + 1;
        LoadRecords(All);
        r := Success(id);
    }

    /** `search_by_date_range`: on any rejection show the warning and change
        nothing; otherwise show exactly the stored documents dated from the
        from-date to the to-date, both included. */
    method SearchByDateRange(fromText: string, toText: string) returns (r: Result<Query, SearchError>)
      requires Valid()
      modifies this
      ensures Valid()
      ensures r == RangeQuery(fromText, toText)
      ensures docs == old(docs) && nextId == old(nextId)
      ensures r.Failure? ==> records == old(records) && totalText == old(totalText) && shown == old(shown)
      ensures r.Success? ==>
        && records == Find(docs, r.value)
        && forall d :: d in records <==>
          d in docs &&
          DateLe(Parse(Strip(fromText)).value, Parse(d.rec.date).value) &&
          DateLe(Parse(d.rec.date).value, Parse(Strip(toText)).value)
    {
      r := RangeQuery(fromText, toText);
      if r.Success? {
        RangeSelectsChronologically(docs, nextId, fromText, toText);
        LoadRecords(r.value);
        forall d ensures d in records <==> d in Select(docs, r.value) {
          assert d in records <==> d in multiset(records);
        }
      }
    }

    /** `delete_selected`: with nothing selected, or the confirmation declined,
        change nothing. Otherwise try to delete every selected id in turn; an id
        in `failing` raises, is reported and the loop goes on. Then list
        everything again. */
    method DeleteSelected(selection: seq<nat>, confirmed: bool, failing: set<nat>)
      returns (outcome: DeleteOutcome)
      requires Valid()
      modifies this
      ensures Valid()
      ensures outcome == NothingSelected <==> selection == []
      ensures outcome == Declined <==> selection != [] && !confirmed
      ensures !outcome.Attempted? ==>
        docs == old(docs) && records == old(records) && totalText == old(totalText) && shown == old(shown)
      ensures outcome.Attempted? ==>
        && docs == RemoveIds(old(docs), Deleted(selection, failing))
        && (forall id :: id in outcome.failed <==> id in selection && id in failing)
        && shown == All && records == Find(docs, All)
        && (forall d :: d in records <==> d in old(docs) && d.id !in Deleted(selection, failing))
      ensures nextId == old(nextId)
    {
      if selection == [] {
        return NothingSelected;
      }
      if !confirmed {
        return Declined;
      }
      var failed := DeleteEach(selection, failing);
      LoadRecords(All);
      ListAllShowsEverything(docs);
      outcome := Attempted(failed);
    }

    /** The loop of `delete_selected`: `delete_one` for each selected id in turn.
        An id in `failing` raises; it is reported in `failed` and the loop goes on
        with the next id. */
    method DeleteEach(selection: seq<nat>, failing: set<nat>) returns (failed: seq<nat>)
      requires WellFormed(docs, nextId)
      modifies this`docs
      ensures WellFormed(docs, nextId)
      ensures docs == RemoveIds(old(docs), Deleted(selection, failing))
      ensures forall id :: id in failed <==> id in selection && id in failing
      ensures nextId == old(nextId)
    {
      failed := [];
      ghost var deleted: set<nat> := {};
      RemoveNoIds(docs);
      for i := 0 to |selection|
        invariant deleted == Deleted(selection[..i], failing)
        invariant docs == RemoveIds(old(docs), deleted)
        invariant forall id :: id in failed <==> id in selection[..i] && id in failing
        invariant nextId == old(nextId)
      {
        var id := selection[i];
        DeletedStep(selection, i, failing);
        assert selection[..i + 1] == selection[..i] + [id];
        if id in failing {
          failed := failed + [id];
        } else {
          RemoveIdsTwice(old(docs), deleted, {id});
          docs := RemoveIds(docs, {id});
          deleted := deleted + {id};
        }
      }
      assert selection[..|selection|] == selection;
      RemoveIdsWellFormed(old(docs), deleted, nextId);
    }
  }
}
