/**
 * The filter effect of the IndexDisplay component: from the loaded records,
 * the selected month and the search text it computes the records to display.
 */
module IndexDisplay {
  import opened JsValues
  import opened Filtering

  /** A client record of the loaded JSON section: field name to value. */
  type Record = map<string, Value>

  /**
   * `new Date(v).getMonth()`: the month (0 for January) of the date a value
   * denotes in the local time zone, or None (NaN) when it denotes no date.
   * Date parsing and the time zone belong to the runtime, so the model takes
   * this function as a parameter.
   */
  type DateMonth = Value -> Option<int>

  /** getMonth() never returns a number outside 0..11. */
  ghost predicate GetMonthInRange(dateMonth: DateMonth)
  {
    forall v :: dateMonth(v).Some? ==> 0 <= dateMonth(v).value < 12
  }

  /** `new Date(item.start).getMonth()`; a record without `start` gives NaN. */
  function StartMonth(item: Record, dateMonth: DateMonth): (r: Option<int>)
    ensures "start" !in item ==> r == None
    ensures GetMonthInRange(dateMonth) && r.Some? ==> 0 <= r.value < 12
  {
    if "start" in item then dateMonth(item["start"]) else None
  }

  /** The month callback: `getMonth() === parseInt(month)`; NaN equals nothing. */
  predicate MonthMatches(item: Record, month: string, dateMonth: DateMonth)
    ensures MonthMatches(item, month, dateMonth)
      <==> ParseInt(month).Some? && StartMonth(item, dateMonth) == ParseInt(month)
  {
    var m, target := StartMonth(item, dateMonth), ParseInt(month);
    m.Some? && target.Some? && m.value == target.value
  }

  /** The search callback: some field value, as a lower-cased string, includes the lower-cased term. */
  predicate SearchMatches(item: Record, search: string)
    ensures SearchMatches(item, search) ==> item != map[]
    ensures SearchMatches(item, search) <==>
      exists field, pre, post :: field in item && Lower(Stringify(item[field])) == pre + Lower(search) + post
  {
    SearchMatchesSplit(item, search);
    exists field | field in item :: Includes(Lower(Stringify(item[field])), Lower(search))
  }

  lemma SearchMatchesSplit(item: Record, search: string)
    ensures (exists field | field in item :: Includes(Lower(Stringify(item[field])), Lower(search))) <==>
      exists field, pre, post :: field in item && Lower(Stringify(item[field])) == pre + Lower(search) + post
  {
    forall field | field in item {
      IncludesIffSplit(Lower(Stringify(item[field])), Lower(search));
    }
  }

  function MonthPredicate(month: string, dateMonth: DateMonth): Record -> bool
  {
    item => MonthMatches(item, month, dateMonth)
  }

  function SearchPredicate(search: string): Record -> bool
  {
    item => SearchMatches(item, search)
  }

  /** The month stage: a no-op for the empty selection. */
  function MonthStage(records: seq<Record>, month: string, dateMonth: DateMonth): (r: seq<Record>)
    ensures month == "" ==> r == records
    ensures |r| <= |records|
    ensures forall i :: 0 <= i < |r| ==> r[i] in records && (month == "" || MonthMatches(r[i], month, dateMonth))
    ensures forall x :: x in r <==> x in records && (month == "" || MonthMatches(x, month, dateMonth))
  {
    if month == "" then records
    else
      FilterMembershipAll(records, MonthPredicate(month, dateMonth));
      Filter(records, MonthPredicate(month, dateMonth))
  }

  /** The search stage: a no-op for the empty search text. */
  function SearchStage(records: seq<Record>, search: string): (r: seq<Record>)
    ensures search == "" ==> r == records
    ensures |r| <= |records|
    ensures forall i :: 0 <= i < |r| ==> r[i] in records && (search == "" || SearchMatches(r[i], search))
    ensures forall x :: x in r <==> x in records && (search == "" || SearchMatches(x, search))
  {
    if search == "" then records
    else
      FilterMembershipAll(records, SearchPredicate(search));
      Filter(records, SearchPredicate(search))
  }

  /** `filteredData`: the month stage, then the search stage. */
  function FilteredData(data: seq<Record>, month: string, search: string, dateMonth: DateMonth): (r: seq<Record>)
    ensures |r| <= |data|
    ensures forall i :: 0 <= i < |r| ==> r[i] in data && Shown(r[i], month, search, dateMonth)
  {
    SearchStage(MonthStage(data, month, dateMonth), search)
  }

  /** What a record must satisfy to be displayed: every active filter. */
  predicate Shown(item: Record, month: string, search: string, dateMonth: DateMonth)
  {
    (month == "" || MonthMatches(item, month, dateMonth))
    && (search == "" || SearchMatches(item, search))
  }

  function ShownPredicate(month: string, search: string, dateMonth: DateMonth): Record -> bool
  {
    item => Shown(item, month, search, dateMonth)
  }

  /**
   * The effect body: `newData` starts as `data`, each active stage replaces it
   * by a filtered copy, and the last value is what `setFilteredData` stores.
   */
  method FilterEffect(data: seq<Record>, month: string, search: string, dateMonth: DateMonth)
    returns (filteredData: seq<Record>)
    ensures filteredData == Filter(data, ShownPredicate(month, search, dateMonth))
  {
    var newData := data;
    if month != "" {
      newData := Filter(newData, MonthPredicate(month, dateMonth));
    }
    if search != "" {
      newData := Filter(newData, SearchPredicate(search));
    }
    assert newData == FilteredData(data, month, search, dateMonth);
    PipelineIsOneFilter(data, month, search, dateMonth);
    filteredData := newData;
  }

  /** The two stages in a row are one filter by the conjunction of the active callbacks. */
  lemma PipelineIsOneFilter(data: seq<Record>, month: string, search: string, dateMonth: DateMonth)
    ensures FilteredData(data, month, search, dateMonth) == Filter(data, ShownPredicate(month, search, dateMonth))
  {
    var shown := ShownPredicate(month, search, dateMonth);
    var byMonth, bySearch := MonthPredicate(month, dateMonth), SearchPredicate(search);
    if month != "" && search != "" {
      FilterFilter(data, byMonth, bySearch, shown);
    } else if month != "" {
      FilterAgreeing(data, byMonth, shown);
    } else if search != "" {
      FilterAgreeing(data, bySearch, shown);
    } else {
      FilterKeepsAll(data, shown);
    }
  }

  /**
   * The displayed records are the records of `data` at strictly increasing
   * positions, and those positions are exactly the ones whose record passes
   * every active filter: nothing is added, reordered or duplicated.
   */
  lemma PipelineSelects(data: seq<Record>, month: string, search: string, dateMonth: DateMonth)
    ensures var r, idx := FilteredData(data, month, search, dateMonth), KeptIndices(data, ShownPredicate(month, search, dateMonth));
      && |r| == |idx|
      && StrictlyIncreasing(idx)
      && (forall k :: 0 <= k < |idx| ==> idx[k] < |data| && r[k] == data[idx[k]])
      && (forall i :: 0 <= i < |data| ==> (i in idx <==> Shown(data[i], month, search, dateMonth)))
  {
    PipelineIsOneFilter(data, month, search, dateMonth);
    FilterSelects(data, ShownPredicate(month, search, dateMonth));
  }

  /** A record is displayed iff it is loaded and passes every active filter. */
  lemma PipelineMembership(data: seq<Record>, month: string, search: string, dateMonth: DateMonth, item: Record)
    ensures item in FilteredData(data, month, search, dateMonth)
      <==> item in data && Shown(item, month, search, dateMonth)
  {
    PipelineIsOneFilter(data, month, search, dateMonth);
    FilterMembership(data, ShownPredicate(month, search, dateMonth), item);
  }

  /** With no month selected and no search text every loaded record is displayed, in order. */
  lemma NoFilterShowsAll(data: seq<Record>, dateMonth: DateMonth)
    ensures FilteredData(data, "", "", dateMonth) == data
  {
  }

  /** With a month selected, every displayed record's start date lies in that month. */
  lemma MonthKeptInMonth(data: seq<Record>, month: string, search: string, dateMonth: DateMonth, item: Record)
    requires month != ""
    requires item in FilteredData(data, month, search, dateMonth)
    ensures StartMonth(item, dateMonth).Some?
    ensures StartMonth(item, dateMonth) == ParseInt(month)
  {
    PipelineMembership(data, month, search, dateMonth, item);
  }

  /** With a month selected, a loaded record of that month is displayed unless the search removes it. */
  lemma MonthKeepsMonth(data: seq<Record>, month: string, search: string, dateMonth: DateMonth, item: Record)
    requires month != "" && item in data
    requires StartMonth(item, dateMonth).Some? && StartMonth(item, dateMonth) == ParseInt(month)
    ensures item in FilteredData(data, month, search, dateMonth) <==> search == "" || SearchMatches(item, search)
  {
    PipelineMembership(data, month, search, dateMonth, item);
  }

  /** With a month selected, a record whose start date does not parse is never displayed. */
  lemma UnparsableStartExcluded(data: seq<Record>, month: string, search: string, dateMonth: DateMonth, item: Record)
    requires month != "" && StartMonth(item, dateMonth) == None
    ensures item !in FilteredData(data, month, search, dateMonth)
  {
    PipelineMembership(data, month, search, dateMonth, item);
  }

  /** A selected month that parseInt reads as NaN displays nothing. */
  lemma NaNMonthShowsNothing(data: seq<Record>, month: string, search: string, dateMonth: DateMonth)
    requires month != "" && ParseInt(month) == None
    ensures FilteredData(data, month, search, dateMonth) == []
  {
    var r := FilteredData(data, month, search, dateMonth);
    if r != [] {
      PipelineMembership(data, month, search, dateMonth, r[0]);
      assert false;
    }
  }

  /** A selected month outside 0..11 displays nothing, since getMonth never returns it. */
  lemma OutOfRangeMonthShowsNothing(data: seq<Record>, month: string, search: string, dateMonth: DateMonth)
    requires GetMonthInRange(dateMonth)
    requires month != "" && ParseInt(month).Some? && !(0 <= ParseInt(month).value < 12)
    ensures FilteredData(data, month, search, dateMonth) == []
  {
    var r := FilteredData(data, month, search, dateMonth);
    if r != [] {
      PipelineMembership(data, month, search, dateMonth, r[0]);
      assert false;
    }
  }

  /** With search text, a record is displayed iff it passes the month stage and one field includes the text. */
  lemma SearchKeepsMatches(data: seq<Record>, month: string, search: string, dateMonth: DateMonth, item: Record)
    requires search != ""
    ensures item in FilteredData(data, month, search, dateMonth)
      <==> (item in MonthStage(data, month, dateMonth)
            && exists field | field in item :: Includes(Lower(Stringify(item[field])), Lower(search)))
  {
    FilterMembership(MonthStage(data, month, dateMonth), SearchPredicate(search), item);
  }

  /** A record is found by the full text of one of its fields, in any letter case. */
  lemma SearchFindsFieldText(item: Record, field: string, search: string)
    requires field in item && Lower(search) == Lower(Stringify(item[field]))
    ensures SearchMatches(item, search)
  {
    IncludesSelf(Lower(search));
  }

  /** With search text, a record with no fields is never displayed. */
  lemma SearchDropsEmptyRecord(data: seq<Record>, month: string, search: string, dateMonth: DateMonth)
    requires search != ""
    ensures map[] !in FilteredData(data, month, search, dateMonth)
  {
    PipelineMembership(data, month, search, dateMonth, map[]);
  }

  /** The letter case of the search text does not change what is displayed. */
  lemma SearchIgnoresCase(data: seq<Record>, month: string, search1: string, search2: string, dateMonth: DateMonth)
    requires Lower(search1) == Lower(search2)
    ensures FilteredData(data, month, search1, dateMonth) == FilteredData(data, month, search2, dateMonth)
  {
    assert |search1| == |Lower(search1)| == |Lower(search2)| == |search2|;
    FilterAgreeing(MonthStage(data, month, dateMonth), SearchPredicate(search1), SearchPredicate(search2));
  }

  /** Searching for the lower-cased text displays the same records. */
  lemma SearchLowerCased(data: seq<Record>, month: string, search: string, dateMonth: DateMonth)
    ensures FilteredData(data, month, Lower(search), dateMonth) == FilteredData(data, month, search, dateMonth)
  {
    LowerIdempotent(search);
    SearchIgnoresCase(data, month, Lower(search), search, dateMonth);
  }

  /** Running the search stage before the month stage displays the same records. */
  lemma StagesCommute(data: seq<Record>, month: string, search: string, dateMonth: DateMonth)
    ensures FilteredData(data, month, search, dateMonth) == MonthStage(SearchStage(data, search), month, dateMonth)
  {
    if month != "" && search != "" {
      FilterCommutes(data, MonthPredicate(month, dateMonth), SearchPredicate(search));
    }
  }

  /** Filtering the displayed records again with the same inputs changes nothing. */
  lemma PipelineIdempotent(data: seq<Record>, month: string, search: string, dateMonth: DateMonth)
    ensures var r := FilteredData(data, month, search, dateMonth);
      FilteredData(r, month, search, dateMonth) == r
  {
    var shown := ShownPredicate(month, search, dateMonth);
    var r := FilteredData(data, month, search, dateMonth);
    PipelineIsOneFilter(data, month, search, dateMonth);
    PipelineIsOneFilter(r, month, search, dateMonth);
    FilterIdempotent(data, shown);
  }

  /** "Displaying N results": N counts the records that pass every active filter, at most all of them. */
  lemma DisplayedCount(data: seq<Record>, month: string, search: string, dateMonth: DateMonth)
    ensures var n := |FilteredData(data, month, search, dateMonth)|;
      n == |KeptIndices(data, ShownPredicate(month, search, dateMonth))| && n <= |data|
  {
    PipelineSelects(data, month, search, dateMonth);
  }
}
