/** What the program computes from the working set: the running total shown in
    the window (`update_total`) and the grouped sums that feed the two charts
    (`graph_by_date`, `graph_by_category`). */
module Aggregation {
  import opened Text
  import opened Sorting
  import opened Records

  /** Sum of the amounts of the records. */
  function SumAmounts(ws: seq<Doc>): int {
    if ws == [] then 0 else SumAmounts(ws[..|ws| - 1]) + ws[|ws| - 1].rec.amount
  }

  /** `update_total`: add up the amounts of the working set, starting from zero. */
  method Total(ws: seq<Doc>) returns (total: int)
    ensures total == SumAmounts(ws)
  {
    total := 0;
    for i := 0 to |ws|
      invariant total == SumAmounts(ws[..i])
    {
      assert ws[..i + 1][..i] == ws[..i];
      total := total + ws[i].rec.amount;
    }
    assert ws[..|ws|] == ws;
  }

  /** The two ways the charts group records. */
  datatype Grouping = ByDate | ByCategory

  /** `r.get("category") or "Other"`: an empty category is charted as "Other". */
  function CategoryLabel(category: string): (name: string)
    ensures name != ""
    ensures category != "" ==> name == category
  {
    if category == [] then "Other" else category
  }

  function Key(r: Expense, g: Grouping): string {
    match g
    case ByDate => r.date
    case ByCategory => CategoryLabel(r.category)
  }

  /** The group key of every record, in working-set order. */
  function Labels(ws: seq<Doc>, g: Grouping): (ls: seq<string>)
    ensures |ls| == |ws|
    ensures forall i :: 0 <= i < |ws| ==> ls[i] == Key(ws[i].rec, g)
  {
    if ws == [] then [] else Labels(ws[..|ws| - 1], g) + [Key(ws[|ws| - 1].rec, g)]
  }

  /** Sum of the amounts of the records whose key is k. */
  function GroupSum(ws: seq<Doc>, g: Grouping, k: string): int {
    if ws == [] then 0
    else GroupSum(ws[..|ws| - 1], g, k) + (if Key(ws[|ws| - 1].rec, g) == k then ws[|ws| - 1].rec.amount else 0)
  }

  ghost predicate NoDuplicates(s: seq<string>) {
    forall x :: multiset(s)[x] <= 1
  }

  lemma RepeatCounts(s: seq<string>, i: int, j: int)
    requires 0 <= i < j < |s|
    ensures s[i] == s[j] ==> multiset(s)[s[i]] >= 2
  {
    assert s == s[..j] + s[j..];
    assert s[i] in s[..j] && s[j] in s[j..];
  }

  lemma NoDuplicatesAt(s: seq<string>, i: int, j: int)
    requires NoDuplicates(s) && 0 <= i < j < |s|
    ensures s[i] != s[j]
  {
    RepeatCounts(s, i, j);
  }

  lemma NoDuplicatesTail(s: seq<string>)
    requires NoDuplicates(s) && s != []
    ensures NoDuplicates(s[1..]) && s[0] !in s[1..]
  {
    assert s == [s[0]] + s[1..];
    assert multiset(s) == multiset{s[0]} + multiset(s[1..]);
    forall x ensures multiset(s[1..])[x] <= 1 {
      assert multiset(s)[x] == (if x == s[0] then 1 else 0) + multiset(s[1..])[x];
    }
    assert multiset(s)[s[0]] == 1 + multiset(s[1..])[s[0]];
  }

  /** The distinct elements of xs in order of first occurrence: the keys of a
      Python dict filled from xs, in the dict's insertion order. */
  function Distinct(xs: seq<string>): (r: seq<string>)
    ensures NoDuplicates(r)
    ensures forall x :: x in r <==> x in xs
  {
    if xs == [] then []
    else
      var p := Distinct(xs[..|xs| - 1]);
      var x := xs[|xs| - 1];
      assert xs == xs[..|xs| - 1] + [x];
      if x in p then p
      else
        assert multiset(p + [x]) == multiset(p) + multiset{x};
        p + [x]
  }

  /** Position of the first occurrence of x in xs. */
  function FirstIndex(xs: seq<string>, x: string): (i: nat)
    requires x in xs
    ensures i < |xs| && xs[i] == x
    ensures forall j :: 0 <= j < i ==> xs[j] != x
  {
    if xs[0] == x then 0 else 1 + FirstIndex(xs[1..], x)
  }

  lemma FirstIndexExtend(xs: seq<string>, y: string, x: string)
    requires x in xs
    ensures FirstIndex(xs + [y], x) == FirstIndex(xs, x)
  {
    var i, k := FirstIndex(xs + [y], x), FirstIndex(xs, x);
    assert forall j :: 0 <= j < |xs| ==> (xs + [y])[j] == xs[j];
  }

  /** Distinct keeps keys in the order in which they first occur. */
  lemma {:induction false} DistinctFirstOccurrenceOrder(xs: seq<string>, i: int, j: int)
    requires 0 <= i < j < |Distinct(xs)|
    ensures FirstIndex(xs, Distinct(xs)[i]) < FirstIndex(xs, Distinct(xs)[j])
  {
    var init, x := xs[..|xs| - 1], xs[|xs| - 1];
    assert xs == init + [x];
    var p := Distinct(init);
    var d := Distinct(xs);
    if j < |p| {
      DistinctFirstOccurrenceOrder(init, i, j);
      FirstIndexExtend(init, x, d[i]);
      FirstIndexExtend(init, x, d[j]);
    } else {
      assert x !in p && d[j] == x && d[i] == p[i];
      assert x !in init;
      FirstIndexExtend(init, x, d[i]);
    }
  }

  /** The group sum of each key of ks, in the order of ks. */
  function GroupTotals(ws: seq<Doc>, g: Grouping, ks: seq<string>): (ts: seq<int>)
    ensures |ts| == |ks|
    ensures forall i :: 0 <= i < |ks| ==> ts[i] == GroupSum(ws, g, ks[i])
  {
    if ks == [] then [] else [GroupSum(ws, g, ks[0])] + GroupTotals(ws, g, ks[1..])
  }

  function SumSeq(ts: seq<int>): int {
    if ts == [] then 0 else ts[0] + SumSeq(ts[1..])
  }

  lemma {:induction false} GroupTotalsOfNothing(g: Grouping, ks: seq<string>)
    ensures SumSeq(GroupTotals([], g, ks)) == 0
  {
    if ks != [] {
      GroupTotalsOfNothing(g, ks[1..]);
    }
  }

  /** Adding one record adds its amount to the one group among distinct keys that is its own. */
  lemma {:induction false} GroupTotalsStep(w: seq<Doc>, x: Doc, g: Grouping, ks: seq<string>)
    requires NoDuplicates(ks)
    ensures SumSeq(GroupTotals(w + [x], g, ks)) ==
      SumSeq(GroupTotals(w, g, ks)) + (if Key(x.rec, g) in ks then x.rec.amount else 0)
  {
    if ks != [] {
      NoDuplicatesTail(ks);
      GroupTotalsStep(w, x, g, ks[1..]);
      assert (w + [x])[..|w|] == w;
    }
  }

  /** Partition: over a list of distinct keys that covers every record, the group
      sums add up to the total. */
  lemma {:induction false} GroupTotalsPartition(ws: seq<Doc>, g: Grouping, ks: seq<string>)
    requires NoDuplicates(ks)
    requires forall i :: 0 <= i < |ws| ==> Key(ws[i].rec, g) in ks
    ensures SumSeq(GroupTotals(ws, g, ks)) == SumAmounts(ws)
    decreases |ws|
  {
    if ws == [] {
      GroupTotalsOfNothing(g, ks);
    } else {
      var w, x := ws[..|ws| - 1], ws[|ws| - 1];
      assert ws == w + [x];
      GroupTotalsPartition(w, g, ks);
      GroupTotalsStep(w, x, g, ks);
    }
  }

  lemma LabelsExtend(ws: seq<Doc>, i: int, g: Grouping)
    requires 0 <= i < |ws|
    ensures Labels(ws[..i + 1], g) == Labels(ws[..i], g) + [Key(ws[i].rec, g)]
  {
  }

  lemma GroupSumExtend(ws: seq<Doc>, i: int, g: Grouping, k: string)
    requires 0 <= i < |ws|
    ensures GroupSum(ws[..i + 1], g, k) ==
      GroupSum(ws[..i], g, k) + (if Key(ws[i].rec, g) == k then ws[i].rec.amount else 0)
  {
    assert ws[..i + 1][..i] == ws[..i];
  }

  /** A key no record carries has an empty group. */
  lemma {:induction false} GroupSumAbsent(ws: seq<Doc>, g: Grouping, k: string)
    requires k !in Labels(ws, g)
    ensures GroupSum(ws, g, k) == 0
  {
    if ws != [] {
      var w := ws[..|ws| - 1];
      assert Labels(ws, g) == Labels(w, g) + [Key(ws[|ws| - 1].rec, g)];
      GroupSumAbsent(w, g, k);
    }
  }

  lemma DistinctExtend(xs: seq<string>, x: string)
    ensures Distinct(xs + [x]) == if x in Distinct(xs) then Distinct(xs) else Distinct(xs) + [x]
  {
  }

  /** `[agg[k] for k in ks]`. */
  function Lookup(agg: map<string, int>, ks: seq<string>): (ts: seq<int>)
    requires forall k :: k in ks ==> k in agg
    ensures |ts| == |ks|
    ensures forall i :: 0 <= i < |ks| ==> ts[i] == agg[ks[i]]
  {
    if ks == [] then [] else [agg[ks[0]]] + Lookup(agg, ks[1..])
  }

  /** keys and agg hold what the dict holds after the records of ws. */
  ghost predicate Aggregated(ws: seq<Doc>, g: Grouping, keys: seq<string>, agg: map<string, int>) {
    && keys == Distinct(Labels(ws, g))
    && (forall k :: k in agg <==> k in keys)
    && (forall k :: k in agg ==> agg[k] == GroupSum(ws, g, k))
  }

  lemma AggregateStepKeys(ws: seq<Doc>, i: int, g: Grouping, keys: seq<string>, keys': seq<string>)
    requires 0 <= i < |ws| && keys == Distinct(Labels(ws[..i], g))
    requires var k := Key(ws[i].rec, g); keys' == (if k in keys then keys else keys + [k])
    ensures keys' == Distinct(Labels(ws[..i + 1], g))
  {
    LabelsExtend(ws, i, g);
    DistinctExtend(Labels(ws[..i], g), Key(ws[i].rec, g));
  }

  lemma AggregateStepSums(ws: seq<Doc>, i: int, g: Grouping, agg: map<string, int>, agg': map<string, int>)
    requires 0 <= i < |ws|
    requires forall k :: k in agg ==> agg[k] == GroupSum(ws[..i], g, k)
    requires forall k :: k in agg <==> k in Labels(ws[..i], g)
    requires var k := Key(ws[i].rec, g); agg' == agg[k := (if k in agg then agg[k] else 0) + ws[i].rec.amount]
    ensures forall k :: k in agg' ==> agg'[k] == GroupSum(ws[..i + 1], g, k)
  {
    var k := Key(ws[i].rec, g);
    if k !in agg {
      GroupSumAbsent(ws[..i], g, k);
    }
    forall k' | k' in agg' ensures agg'[k'] == GroupSum(ws[..i + 1], g, k') {
      GroupSumExtend(ws, i, g, k');
    }
  }

  /** One turn of the dict-filling loop. */
  lemma AggregateStep(ws: seq<Doc>, i: int, g: Grouping, keys: seq<string>, agg: map<string, int>,
                      keys': seq<string>, agg': map<string, int>)
    requires 0 <= i < |ws| && Aggregated(ws[..i], g, keys, agg)
    requires var k := Key(ws[i].rec, g);
      && keys' == (if k in agg then keys else keys + [k])
      && agg' == agg[k := (if k in agg then agg[k] else 0) + ws[i].rec.amount]
    ensures Aggregated(ws[..i + 1], g, keys', agg')
  {
    assert keys' == Distinct(Labels(ws[..i + 1], g)) by {
      AggregateStepKeys(ws, i, g, keys, keys');
    }
    assert forall k :: k in agg' ==> agg'[k] == GroupSum(ws[..i + 1], g, k) by {
      AggregateStepSums(ws, i, g, agg, agg');
    }
  }

  /** One turn of the dict-filling loop: `agg[k] = agg.get(k, 0) + amount` for
      the record at `i`, where a key met for the first time joins the end of
      the dict's insertion order. */
  method Accumulate(ws: seq<Doc>, i: int, g: Grouping, keys: seq<string>, agg: map<string, int>)
    returns (keys': seq<string>, agg': map<string, int>)
    requires 0 <= i < |ws| && Aggregated(ws[..i], g, keys, agg)
    ensures Aggregated(ws[..i + 1], g, keys', agg')
  {
    var k := Key(ws[i].rec, g);
    var previous := if k in agg then agg[k] else 0;
    keys' := if k in agg then keys else keys + [k];
    agg' := agg[k := previous + ws[i].rec.amount];
    AggregateStep(ws, i, g, keys, agg, keys', agg');
  }

  /** The dict-filling loop both chart methods share; `keys` lists the dict's
      keys in insertion order. */
  method Aggregate(ws: seq<Doc>, g: Grouping) returns (keys: seq<string>, agg: map<string, int>)
    ensures Aggregated(ws, g, keys, agg)
  {
    keys, agg := [], map[];
    for i := 0 to |ws|
      invariant Aggregated(ws[..i], g, keys, agg)
    {
      keys, agg := Accumulate(ws, i, g, keys, agg);
    }
    assert ws[..|ws|] == ws;
  }

  function Identity(k: string): string {
    k
  }

  /** `sorted()` on distinct keys lists each of them once, strictly ascending. */
  lemma SortedDistinctKeys(keys: seq<string>)
    requires NoDuplicates(keys)
    ensures var dates := SortBy(keys, Identity);
      && NoDuplicates(dates)
      && (forall k :: k in dates <==> k in keys)
      && (forall i, j :: 0 <= i < j < |dates| ==> LexLt(dates[i], dates[j]))
  {
    var dates := SortBy(keys, Identity);
    forall k ensures k in dates <==> k in keys {
      assert k in dates <==> k in multiset(dates);
    }
    forall i, j | 0 <= i < j < |dates| ensures LexLt(dates[i], dates[j]) {
      NoDuplicatesAt(dates, i, j);
    }
  }

  /** Reading the dict back key by key gives the group sums. */
  lemma LookupGroupTotals(ws: seq<Doc>, g: Grouping, ks: seq<string>, agg: map<string, int>)
    requires forall k :: k in ks ==> k in agg && agg[k] == GroupSum(ws, g, k)
    ensures Lookup(agg, ks) == GroupTotals(ws, g, ks)
  {
  }

  /** What the date chart plots: one point per distinct date of the working
      set, dates strictly ascending, each with the sum of that day's amounts,
      the points together adding up to the working set's total. */
  ghost predicate IsDateChart(ws: seq<Doc>, dates: seq<string>, totals: seq<int>) {
    && (forall i, j :: 0 <= i < j < |dates| ==> LexLt(dates[i], dates[j]))
    && (forall k :: k in dates <==> k in Labels(ws, ByDate))
    && totals == GroupTotals(ws, ByDate, dates)
    && SumSeq(totals) == SumAmounts(ws)
  }

  /** What the category chart plots: one bar per category label ("Other" for a
      blank category), labels in order of first occurrence, each with the sum
      of its amounts, the bars together adding up to the working set's total. */
  ghost predicate IsCategoryChart(ws: seq<Doc>, cats: seq<string>, totals: seq<int>) {
    && cats == Distinct(Labels(ws, ByCategory))
    && "" !in cats
    && totals == GroupTotals(ws, ByCategory, cats)
    && SumSeq(totals) == SumAmounts(ws)
  }

  /** A key list holding every label of the working set partitions its total. */
  lemma CoveringKeysPartition(ws: seq<Doc>, g: Grouping, ks: seq<string>)
    requires NoDuplicates(ks)
    requires forall k :: k in Labels(ws, g) ==> k in ks
    ensures SumSeq(GroupTotals(ws, g, ks)) == SumAmounts(ws)
  {
    assert forall i :: 0 <= i < |ws| ==> Key(ws[i].rec, g) in ks by {
      assert forall i :: 0 <= i < |ws| ==> Labels(ws, g)[i] in Labels(ws, g);
    }
    GroupTotalsPartition(ws, g, ks);
  }

  lemma DateChartOfAggregate(ws: seq<Doc>, keys: seq<string>, agg: map<string, int>)
    requires Aggregated(ws, ByDate, keys, agg)
    ensures var dates := SortBy(keys, Identity);
      && (forall k :: k in dates ==> k in agg)
      && IsDateChart(ws, dates, Lookup(agg, dates))
  {
    var dates := SortBy(keys, Identity);
    assert NoDuplicates(dates) && forall k :: k in dates <==> k in Labels(ws, ByDate) by {
      SortedDistinctKeys(keys);
    }
    LookupGroupTotals(ws, ByDate, dates, agg);
    CoveringKeysPartition(ws, ByDate, dates);
    SortedDistinctKeys(keys);
  }

  lemma CategoryChartOfAggregate(ws: seq<Doc>, cats: seq<string>, agg: map<string, int>)
    requires Aggregated(ws, ByCategory, cats, agg)
    ensures forall k :: k in cats ==> k in agg
    ensures IsCategoryChart(ws, cats, Lookup(agg, cats))
  {
    LookupGroupTotals(ws, ByCategory, cats, agg);
    CoveringKeysPartition(ws, ByCategory, cats);
    assert "" !in cats by {
      var ls := Labels(ws, ByCategory);
      assert forall i :: 0 <= i < |ls| ==> ls[i] != "";
    }
  }

  /** What a chart is drawn from, or the "No records to graph" notice. */
  datatype Chart = NoRecords | Chart(keys: seq<string>, totals: seq<int>)

  /** `graph_by_date` up to plotting. */
  method GraphByDate(ws: seq<Doc>) returns (chart: Chart)
    ensures chart == NoRecords <==> ws == []
    ensures chart.Chart? ==> IsDateChart(ws, chart.keys, chart.totals)
  {
    if ws == [] {
      return NoRecords;
    }
    var keys, agg := Aggregate(ws, ByDate);
    var dates := SortBy(keys, Identity);
    DateChartOfAggregate(ws, keys, agg);
    var amounts := Lookup(agg, dates);
    chart := Chart(dates, amounts);
  }

  /** `graph_by_category` up to plotting. */
  method GraphByCategory(ws: seq<Doc>) returns (chart: Chart)
    ensures chart == NoRecords <==> ws == []
    ensures chart.Chart? ==> IsCategoryChart(ws, chart.keys, chart.totals)
  {
    if ws == [] {
      return NoRecords;
    }
    var cats, agg := Aggregate(ws, ByCategory);
    CategoryChartOfAggregate(ws, cats, agg);
    var amounts := Lookup(agg, cats);
    chart := Chart(cats, amounts);
  }
}
