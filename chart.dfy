/** `generate_timeline_chart` (main.py:29-40): one line trace per dictionary
    entry whose key names the requested timeline type before its first `:`, in
    dictionary order, named by the key's second `:`-separated piece. */
module Chart {
  import opened Base
  import opened Text
  import opened OrderedDict
  import opened Series
  import opened Timeline
  import opened FilterBuilder

  /** `go.Scatter(x=..., y=..., mode='lines', name=...)`. */
  datatype Trace = Trace(name: string, x: seq<int>, y: seq<Option<real>>)

  /** The figure: its traces and the layout titles set by `update_layout`. */
  datatype Figure = Figure(title: string, xAxisTitle: string, yAxisTitle: string,
                           legendTitle: string, traces: seq<Trace>)

  /** `composite_key.split(":")[0] == timeline_type["search_api"]`. */
  predicate Selected(key: string, t: TimelineType)
  {
    Split(key, ':')[0] == t.searchApi
  }

  /** One loop iteration: an unselected entry adds nothing; a selected key with
      no `:` raises IndexError at `split(":")[1]`; a table without the value
      column raises KeyError. */
  function EntryTrace(key: string, s: Series, t: TimelineType): Result<Option<Trace>, Error>
  {
    var parts := Split(key, ':');
    if parts[0] != t.searchApi then Ok(None)
    else if |parts| < 2 then Err(MissingKeySegment(key))
    else if !HasColumn(s, t.colName) then Err(MissingColumn(t.colName))
    else Ok(Some(Trace(parts[1], Datetimes(s), Column(s, t.colName))))
  }

  /** The traces the loop adds, in dictionary order, or the first exception. */
  function ChartTraces(data: Dict<Series>, t: TimelineType): Result<seq<Trace>, Error>
  {
    if data == [] then Ok([])
    else
      var n := |data| - 1;
      match ChartTraces(data[..n], t)
      case Err(e) => Err(e)
      case Ok(traces) =>
        match EntryTrace(data[n].0, data[n].1, t)
        case Err(e) => Err(e)
        case Ok(None) => Ok(traces)
        case Ok(Some(trace)) => Ok(traces + [trace])
  }

  /** `generate_timeline_chart(timeline_data_dict, timeline_type)`. */
  method GenerateTimelineChart(data: Dict<Series>, t: TimelineType) returns (r: Result<Figure, Error>)
    ensures r == match ChartTraces(data, t)
                 case Err(e) => Err(e)
                 case Ok(traces) => Ok(Figure(t.title, "Date", t.colName, "Data Type", traces))
  {
    var traces: seq<Trace> := [];
    var i := 0;
    while i < |data|
      invariant 0 <= i <= |data|
      invariant ChartTraces(data[..i], t) == Ok(traces)
    {
      var (key, s) := data[i];
      assert data[..i + 1][..i] == data[..i];
      var parts := Split(key, ':');
      if parts[0] == t.searchApi {
        if |parts| < 2 {
          ChartErrSticky(data, t, i + 1);
          return Err(MissingKeySegment(key));
        }
        var keyword := parts[1];
        if !HasColumn(s, t.colName) {
          ChartErrSticky(data, t, i + 1);
          return Err(MissingColumn(t.colName));
        }
        traces := traces + [Trace(keyword, Datetimes(s), Column(s, t.colName))];
      }
      i := i + 1;
    }
    assert data[..i] == data;
    r := Ok(Figure(t.title, "Date", t.colName, "Data Type", traces));
  }

  /** An exception ends the loop: the later entries change nothing. */
  lemma {:induction false} ChartErrSticky(data: Dict<Series>, t: TimelineType, i: nat)
    requires i <= |data| && ChartTraces(data[..i], t).Err?
    ensures ChartTraces(data, t) == ChartTraces(data[..i], t)
    decreases |data|
  {
    if i < |data| {
      var n := |data| - 1;
      assert data[..n][..i] == data[..i];
      ChartErrSticky(data[..n], t, i);
    } else {
      assert data[..i] == data;
    }
  }

  /** The selected entries, in dictionary order. */
  function Selection(data: Dict<Series>, t: TimelineType): (sel: Dict<Series>)
    ensures forall j :: 0 <= j < |sel| ==> sel[j] in data && Selected(sel[j].0, t)
  {
    if data == [] then []
    else
      var n := |data| - 1;
      Selection(data[..n], t) + (if Selected(data[n].0, t) then [data[n]] else [])
  }

  /** The positions of the selected entries, in increasing order. */
  function SelectedPositions(data: Dict<Series>, t: TimelineType): seq<nat>
  {
    if data == [] then []
    else
      var n := |data| - 1;
      SelectedPositions(data[..n], t) + (if Selected(data[n].0, t) then [n] else [])
  }

  /** The selection is `data` read at the selected positions. */
  lemma {:induction false} SelectionAtPositions(data: Dict<Series>, t: TimelineType)
    ensures var idx := SelectedPositions(data, t);
      && |idx| == |Selection(data, t)|
      && forall j :: 0 <= j < |idx| ==> idx[j] < |data| && Selection(data, t)[j] == data[idx[j]]
  {
    if data != [] {
      var n := |data| - 1;
      SelectionAtPositions(data[..n], t);
      var prev := SelectedPositions(data[..n], t);
      assert forall j :: 0 <= j < |prev| ==> data[..n][prev[j]] == data[prev[j]];
    }
  }

  /** The selected positions increase strictly, so the selection keeps dictionary order. */
  lemma {:induction false} SelectedPositionsIncrease(data: Dict<Series>, t: TimelineType)
    ensures forall j :: 0 <= j < |SelectedPositions(data, t)| ==> SelectedPositions(data, t)[j] < |data|
    ensures forall j, l :: 0 <= j < l < |SelectedPositions(data, t)| ==>
      SelectedPositions(data, t)[j] < SelectedPositions(data, t)[l]
  {
    if data != [] {
      var n := |data| - 1;
      SelectedPositionsIncrease(data[..n], t);
      var prev := SelectedPositions(data[..n], t);
      var idx := SelectedPositions(data, t);
      assert idx == prev + (if Selected(data[n].0, t) then [n] else []);
      assert forall j :: 0 <= j < |prev| ==> idx[j] == prev[j] && prev[j] < n;
    }
  }

  /** Every selected entry's position is among the selected positions. */
  lemma {:induction false} SelectedPositionsCover(data: Dict<Series>, t: TimelineType)
    ensures forall m :: 0 <= m < |data| && Selected(data[m].0, t) ==> m in SelectedPositions(data, t)
  {
    if data != [] {
      var n := |data| - 1;
      SelectedPositionsCover(data[..n], t);
      assert forall m :: 0 <= m < n ==> data[..n][m] == data[m];
    }
  }

  /** Every selected entry is in the selection. */
  lemma SelectionComplete(data: Dict<Series>, t: TimelineType)
    ensures forall j :: 0 <= j < |data| && Selected(data[j].0, t) ==> data[j] in Selection(data, t)
  {
    var idx := SelectedPositions(data, t);
    SelectionAtPositions(data, t);
    SelectedPositionsCover(data, t);
    forall j | 0 <= j < |data| && Selected(data[j].0, t) ensures data[j] in Selection(data, t) {
      var l :| 0 <= l < |idx| && idx[l] == j;
      assert Selection(data, t)[l] == data[j];
    }
  }

  /** The chart fails exactly when a selected key has no `:` or a selected table
      lacks the value column. */
  lemma {:induction false} ChartOkIff(data: Dict<Series>, t: TimelineType)
    ensures ChartTraces(data, t).Ok? <==>
      forall j :: 0 <= j < |data| && Selected(data[j].0, t) ==>
        ':' in data[j].0 && HasColumn(data[j].1, t.colName)
  {
    if data != [] {
      var n := |data| - 1;
      ChartOkIff(data[..n], t);
      assert forall j :: 0 <= j < n ==> data[..n][j] == data[j];
      CountZero(data[n].0, ':');
    }
  }

  /** When it succeeds, the chart has one trace per selected entry, in
      dictionary order: named by the key's second piece, with the timestamps as
      x and the value column as y. */
  lemma {:induction false} ChartTracesOfSelection(data: Dict<Series>, t: TimelineType, traces: seq<Trace>)
    requires ChartTraces(data, t) == Ok(traces)
    ensures var sel := Selection(data, t);
      && |traces| == |sel|
      && forall j :: 0 <= j < |sel| ==>
           && |Split(sel[j].0, ':')| >= 2 && HasColumn(sel[j].1, t.colName)
           && traces[j] == Trace(Split(sel[j].0, ':')[1], Datetimes(sel[j].1), Column(sel[j].1, t.colName))
  {
    if data != [] {
      var n := |data| - 1;
      var r := ChartTraces(data[..n], t);
      assert r.Ok?;
      ChartTracesOfSelection(data[..n], t, r.value);
    }
  }

  /** The trace of the composite key `"<api>:<keyword>"` is selected by its own
      type and named by the keyword up to its first `:`: a keyword holding `:` is
      truncated, any other is the name unchanged. */
  lemma TraceName(api: string, keyword: string)
    requires ':' !in api
    ensures Split(SeriesKey(api, keyword), ':')[0] == api
    ensures |Split(SeriesKey(api, keyword), ':')| >= 2
    ensures Split(SeriesKey(api, keyword), ':')[1] == Split(keyword, ':')[0]
    ensures ':' !in keyword ==> Split(SeriesKey(api, keyword), ':')[1] == keyword
  {
    SplitSeriesKey(api, keyword);
    if ':' !in keyword {
      SplitPiece(keyword, ':');
    }
  }

  /** The j-th entry of the dictionaries after a run that did not raise was
      written by pair k: the raw entry is that pair's sorted table and the
      smoothed entry, under the same key, its moving average. */
  lemma StoredWriter(jobs: seq<Job>, sorts: seq<Series>, st: Stores, j: nat) returns (k: nat)
    requires |sorts| == |jobs| && Run(jobs, sorts) == Ok(st) && j < |st.raw|
    ensures k < |jobs| && sorts[k] != [] && JobKey(jobs[k]) == st.raw[j].0 && st.raw[j].1 == sorts[k]
    ensures HasColumn(sorts[k], jobs[k].kind.colName)
    ensures j < |st.smoothed| && st.smoothed[j].0 == st.raw[j].0
    ensures st.smoothed[j].1 == MovingAverage(sorts[k], jobs[k].kind.colName)
  {
    var key := st.raw[j].0;
    RunKeys(jobs, sorts, st);
    assert Keys(st.raw)[j] == key && Keys(st.smoothed)[j] == key;
    GetDistinct(st.raw, j);
    GetDistinct(st.smoothed, j);
    RunRaw(jobs, sorts, st, key);
    RunSmoothed(jobs, sorts, st, key);
    k := LastWriter(jobs, sorts, key).value;
  }

  /** Two types of a list of distinct kinds with the same search kind are the same. */
  lemma SameKind(types: seq<TimelineType>, a: TimelineType, b: TimelineType)
    requires DistinctKinds(types) && a in types && b in types && a.searchApi == b.searchApi
    ensures a == b
  {
    var p :| 0 <= p < |types| && types[p] == a;
    var q :| 0 <= q < |types| && types[q] == b;
    assert !(p < q) && !(q < p);
  }

  /** Charting what `process_timeline_data` stored never raises: every stored key
      has a `:` after its kind, and every table selected for a type was stored
      for that type and so has its value column, in both dictionaries. */
  lemma ChartOfPipeline(filters: Dict<Filter>, types: seq<TimelineType>, sorts: seq<Series>,
                        st: Stores, t: TimelineType)
    requires DistinctKinds(types) && t in types
    requires |sorts| == |Jobs(filters, types)| && Run(Jobs(filters, types), sorts) == Ok(st)
    ensures ChartTraces(st.raw, t).Ok? && ChartTraces(st.smoothed, t).Ok?
  {
    var jobs := Jobs(filters, types);
    RunKeys(jobs, sorts, st);
    assert |st.smoothed| == |st.raw|;
    forall j | 0 <= j < |st.raw| && Selected(st.raw[j].0, t)
      ensures ':' in st.raw[j].0 && HasColumn(st.raw[j].1, t.colName)
      ensures ':' in st.smoothed[j].0 && HasColumn(st.smoothed[j].1, t.colName)
    {
      var k := StoredWriter(jobs, sorts, st, j);
      var job := jobs[k];
      assert job in jobs;
      JobsMembership(filters, types, job);
      JobKindIn(filters, types, job);
      TraceName(job.kind.searchApi, job.keyword);
      CountZero(st.raw[j].0, ':');
      SameKind(types, job.kind, t);
    }
    ChartOkIff(st.raw, t);
    ChartOkIff(st.smoothed, t);
  }
}
