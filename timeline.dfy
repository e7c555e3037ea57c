/** `process_timeline_data` (main.py:53-76): for every keyword of the filter
    dictionary and every timeline type, fetch one timeline, swallow a failure
    as an empty table, skip empty tables, sort the rows by timestamp in place
    and store the sorted table and its smoothed copy under `"<api>:<keyword>"`. */
module Timeline {
  import opened Base
  import opened Text
  import opened OrderedDict
  import opened Series
  import opened FilterBuilder

  /** One entry of `timeline_types` (main.py:96-98). */
  datatype TimelineType = TimelineType(searchApi: string, title: string, colName: string)

  /** The three timeline types the dashboard asks for. */
  const TimelineTypes: seq<TimelineType> := [
    TimelineType("timelinetone", "Average Tone", "Average Tone"),
    TimelineType("timelinevol", "Volume As % Of Total", "Volume Intensity"),
    TimelineType("timelinevolraw", "Volume Of Total Articles", "Article Count")
  ]

  /** What one call `gd.timeline_search(api, f)` does: raise, or return a table. */
  datatype TimelineFetch = FetchRaised | FetchedTable(rows: Series)

  /** The timeline service, as a function of the search kind and the filter. */
  type Fetcher = (string, Filter) -> TimelineFetch

  /** The composite key `f"{api}:{keyword}"`. */
  function SeriesKey(api: string, keyword: string): string
  {
    api + ":" + keyword
  }

  /** A composite key splits at its first `:` into the search kind and the
      pieces of the keyword. */
  lemma SplitSeriesKey(api: string, keyword: string)
    requires ':' !in api
    ensures Split(SeriesKey(api, keyword), ':') == [api] + Split(keyword, ':')
  {
    SplitAfterPiece(api, keyword, ':');
  }

  /** Different (kind, keyword) pairs get different keys, since no kind contains `:`. */
  lemma SeriesKeyInjective(api1: string, keyword1: string, api2: string, keyword2: string)
    requires ':' !in api1 && ':' !in api2
    ensures SeriesKey(api1, keyword1) == SeriesKey(api2, keyword2) <==> api1 == api2 && keyword1 == keyword2
  {
    if SeriesKey(api1, keyword1) == SeriesKey(api2, keyword2) {
      SplitSeriesKey(api1, keyword1);
      SplitSeriesKey(api2, keyword2);
      assert Split(SeriesKey(api1, keyword1), ':')[0] == api1;
      assert Split(SeriesKey(api2, keyword2), ':')[0] == api2;
      assert SeriesKey(api1, keyword1)[|api1| + 1..] == keyword1;
      assert SeriesKey(api2, keyword2)[|api2| + 1..] == keyword2;
    }
  }

  /** The search kinds are colon-free and pairwise different. */
  predicate DistinctKinds(types: seq<TimelineType>)
  {
    && (forall t :: 0 <= t < |types| ==> ':' !in types[t].searchApi)
    && (forall t, u :: 0 <= t < u < |types| ==> types[t].searchApi != types[u].searchApi)
  }

  lemma TimelineTypesDistinct()
    ensures DistinctKinds(TimelineTypes)
  {
    assert TimelineTypes[0].searchApi == "timelinetone";
    assert TimelineTypes[1].searchApi == "timelinevol";
    assert TimelineTypes[2].searchApi == "timelinevolraw";
    assert |"timelinevol"| < |"timelinetone"| < |"timelinevolraw"|;
  }

  // ---- the pairs the nested loops visit ----

  /** One iteration of the inner loop: a keyword, its filter and a timeline type. */
  datatype Job = Job(keyword: string, filter: Filter, kind: TimelineType)

  function JobKey(job: Job): string
  {
    SeriesKey(job.kind.searchApi, job.keyword)
  }

  /** The inner loop over the timeline types for one keyword. */
  function JobsFor(keyword: string, f: Filter, types: seq<TimelineType>): seq<Job>
  {
    seq(|types|, t requires 0 <= t < |types| => Job(keyword, f, types[t]))
  }

  /** The inner loop visits exactly the pairs of its keyword and filter with a listed type. */
  lemma JobsForMembership(keyword: string, f: Filter, types: seq<TimelineType>, job: Job)
    ensures job in JobsFor(keyword, f, types) <==> job.keyword == keyword && job.filter == f && job.kind in types
  {
    var js := JobsFor(keyword, f, types);
    if job.keyword == keyword && job.filter == f && job.kind in types {
      var t :| 0 <= t < |types| && types[t] == job.kind;
      assert js[t] == job;
    }
  }

  /** Both loops: keywords in dictionary order, and for each the types in order. */
  function Jobs(filters: Dict<Filter>, types: seq<TimelineType>): seq<Job>
  {
    if filters == [] then []
    else
      var n := |filters| - 1;
      Jobs(filters[..n], types) + JobsFor(filters[n].0, filters[n].1, types)
  }

  /** Every (keyword, type) pair is visited, and nothing else. */
  lemma {:induction false} JobsMembership(filters: Dict<Filter>, types: seq<TimelineType>, job: Job)
    ensures job in Jobs(filters, types) <==> (job.keyword, job.filter) in filters && job.kind in types
  {
    if filters != [] {
      var n := |filters| - 1;
      JobsMembership(filters[..n], types, job);
      assert filters == filters[..n] + [filters[n]];
      var js := JobsFor(filters[n].0, filters[n].1, types);
      if job.kind in types && (job.keyword, job.filter) == filters[n] {
        var t :| 0 <= t < |types| && types[t] == job.kind;
        assert js[t] == job;
      }
    }
  }

  /** The loops over a prefix of the dictionary visit a prefix of the pairs. */
  lemma {:induction false} JobsPrefix(filters: Dict<Filter>, types: seq<TimelineType>, i: nat)
    requires i <= |filters|
    ensures Jobs(filters[..i], types) <= Jobs(filters, types)
    decreases |filters|
  {
    if i < |filters| {
      var n := |filters| - 1;
      JobsPrefix(filters[..n], types, i);
      assert filters[..n][..i] == filters[..i];
    } else {
      assert filters[..i] == filters;
    }
  }

  /** No two pairs share a composite key. */
  predicate DistinctKeys(jobs: seq<Job>)
  {
    forall k, l :: 0 <= k < l < |jobs| ==> JobKey(jobs[k]) != JobKey(jobs[l])
  }

  /** With distinct keywords and distinct colon-free kinds, every visited pair has its own key. */
  lemma {:induction false} JobKeysDistinct(filters: Dict<Filter>, types: seq<TimelineType>)
    requires NoDuplicates(Keys(filters)) && DistinctKinds(types)
    ensures DistinctKeys(Jobs(filters, types))
  {
    if filters != [] {
      var n := |filters| - 1;
      var before := Jobs(filters[..n], types);
      var last := JobsFor(filters[n].0, filters[n].1, types);
      var js := before + last;
      assert Keys(filters[..n]) == Keys(filters)[..n];
      JobKeysDistinct(filters[..n], types);
      assert js == Jobs(filters, types);
      forall k, l | 0 <= k < l < |js| ensures JobKey(js[k]) != JobKey(js[l]) {
        var jk, jl := js[k], js[l];
        assert jk in js && jl in js;
        JobKindIn(filters, types, jk);
        JobKindIn(filters, types, jl);
        SeriesKeyInjective(jk.kind.searchApi, jk.keyword, jl.kind.searchApi, jl.keyword);
        if l < |before| {
          assert jk == before[k] && jl == before[l];
          assert JobKey(jk) != JobKey(jl);
        } else if k < |before| {
          assert jl == last[l - |before|];
          assert jk in before;
          JobsMembership(filters[..n], types, jk);
          var p :| 0 <= p < n && filters[..n][p] == (jk.keyword, jk.filter);
          assert Keys(filters)[p] == jk.keyword;
          assert Keys(filters)[n] == jl.keyword;
          assert JobKey(jk) != JobKey(jl);
        } else {
          assert jk == last[k - |before|] && jl == last[l - |before|];
          assert jk.kind == types[k - |before|] && jl.kind == types[l - |before|];
          assert JobKey(jk) != JobKey(jl);
        }
      }
    }
  }

  /** A visited pair's kind is one of the types. */
  lemma JobKindIn(filters: Dict<Filter>, types: seq<TimelineType>, job: Job)
    requires DistinctKinds(types) && job in Jobs(filters, types)
    ensures ':' !in job.kind.searchApi
  {
    JobsMembership(filters, types, job);
  }

  // ---- one run of the loops, given the sorted tables ----

  /** The rows one call yields once an exception is swallowed as an empty table (main.py:59-64). */
  function FetchedRows(fetch: Fetcher, job: Job): Series
  {
    match fetch(job.kind.searchApi, job.filter)
    case FetchRaised => []
    case FetchedTable(rows) => rows
  }

  /** `sorted` is `rows` put in non-decreasing timestamp order, ties in any order. */
  predicate IsSortOf(sorted: Series, rows: Series)
  {
    SortedByDatetime(sorted) && multiset(sorted) == multiset(rows)
  }

  /** `sorts[k]` is a sorted order of the table fetched for the k-th pair. */
  predicate ValidSorts(jobs: seq<Job>, fetch: Fetcher, sorts: seq<Series>)
  {
    |sorts| == |jobs| && forall k :: 0 <= k < |jobs| ==> IsSortOf(sorts[k], FetchedRows(fetch, jobs[k]))
  }

  /** The two dictionaries `raw_data` and `smoothed_data`. */
  datatype Stores = Stores(raw: Dict<Series>, smoothed: Dict<Series>)

  /** One inner iteration once its table is sorted: an empty table is skipped;
      otherwise both dictionaries are assigned, and a missing value column makes
      `calculate_moving_average` raise KeyError, which nothing catches. */
  function Step(st: Stores, job: Job, sorted: Series): Result<Stores, Error>
  {
    if sorted == [] then Ok(st)
    else if !HasColumn(sorted, job.kind.colName) then Err(MissingColumn(job.kind.colName))
    else
      var key := JobKey(job);
      Ok(Stores(Put(st.raw, key, sorted), Put(st.smoothed, key, MovingAverage(sorted, job.kind.colName))))
  }

  /** The iterations one after the other from `r0`; an error ends the run. */
  function RunFrom(r0: Result<Stores, Error>, jobs: seq<Job>, sorts: seq<Series>): Result<Stores, Error>
    requires |sorts| == |jobs|
  {
    if jobs == [] then r0
    else
      var n := |jobs| - 1;
      match RunFrom(r0, jobs[..n], sorts[..n])
      case Err(e) => Err(e)
      case Ok(st) => Step(st, jobs[n], sorts[n])
  }

  /** The whole run, from two empty dictionaries. */
  function Run(jobs: seq<Job>, sorts: seq<Series>): Result<Stores, Error>
    requires |sorts| == |jobs|
  {
    RunFrom(Ok(Stores([], [])), jobs, sorts)
  }

  /** Running one more iteration. */
  lemma RunFromSnoc(r0: Result<Stores, Error>, jobs: seq<Job>, sorts: seq<Series>, job: Job, sorted: Series)
    requires |sorts| == |jobs|
    ensures RunFrom(r0, jobs + [job], sorts + [sorted]) ==
      match RunFrom(r0, jobs, sorts)
      case Err(e) => Err(e)
      case Ok(st) => Step(st, job, sorted)
  {
    assert (jobs + [job])[..|jobs|] == jobs;
    assert (sorts + [sorted])[..|sorts|] == sorts;
  }

  /** Running two stretches of iterations one after the other. */
  lemma {:induction false} RunFromAppend(r0: Result<Stores, Error>, a: seq<Job>, sa: seq<Series>, b: seq<Job>, sb: seq<Series>)
    requires |sa| == |a| && |sb| == |b|
    ensures RunFrom(r0, a + b, sa + sb) == RunFrom(RunFrom(r0, a, sa), b, sb)
    decreases |b|
  {
    if b == [] {
      assert a + b == a && sa + sb == sa;
    } else {
      var n := |b| - 1;
      RunFromAppend(r0, a, sa, b[..n], sb[..n]);
      assert b == b[..n] + [b[n]] && sb == sb[..n] + [sb[n]];
      assert a + b == (a + b[..n]) + [b[n]] && sa + sb == (sa + sb[..n]) + [sb[n]];
      RunFromSnoc(r0, a + b[..n], sa + sb[..n], b[n], sb[n]);
      RunFromSnoc(RunFrom(r0, a, sa), b[..n], sb[..n], b[n], sb[n]);
    }
  }

  lemma ValidSortsAppend(a: seq<Job>, sa: seq<Series>, b: seq<Job>, sb: seq<Series>, fetch: Fetcher)
    requires ValidSorts(a, fetch, sa) && ValidSorts(b, fetch, sb)
    ensures ValidSorts(a + b, fetch, sa + sb)
  {
    forall k | 0 <= k < |a + b| ensures IsSortOf((sa + sb)[k], FetchedRows(fetch, (a + b)[k])) {
      if k >= |a| {
        assert (sa + sb)[k] == sb[k - |a|] && (a + b)[k] == b[k - |a|];
      }
    }
  }

  /** Once a KeyError has been raised, the remaining iterations do not run. */
  lemma {:induction false} RunFromErr(e: Error, jobs: seq<Job>, sorts: seq<Series>)
    requires |sorts| == |jobs|
    ensures RunFrom(Err(e), jobs, sorts) == Err(e)
  {
    if jobs != [] {
      var n := |jobs| - 1;
      RunFromErr(e, jobs[..n], sorts[..n]);
    }
  }

  /** A pair whose fetch raised or came back empty changes nothing: the run is the
      run without that pair, so a failing pair does not keep later pairs from
      being processed. */
  lemma SkipEmptyPair(jobs: seq<Job>, sorts: seq<Series>, k: nat)
    requires |sorts| == |jobs| && k < |jobs| && sorts[k] == []
    ensures Run(jobs, sorts) == Run(jobs[..k] + jobs[k + 1..], sorts[..k] + sorts[k + 1..])
  {
    var r0 := Ok(Stores([], []));
    assert jobs == jobs[..k] + [jobs[k]] + jobs[k + 1..];
    assert sorts == sorts[..k] + [sorts[k]] + sorts[k + 1..];
    RunFromAppend(r0, jobs[..k] + [jobs[k]], sorts[..k] + [sorts[k]], jobs[k + 1..], sorts[k + 1..]);
    RunFromSnoc(r0, jobs[..k], sorts[..k], jobs[k], sorts[k]);
    RunFromAppend(r0, jobs[..k], sorts[..k], jobs[k + 1..], sorts[k + 1..]);
  }

  /** The run ends in an error exactly when some pair returned a non-empty table
      without its value column. */
  lemma {:induction false} RunOkIff(jobs: seq<Job>, sorts: seq<Series>)
    requires |sorts| == |jobs|
    ensures Run(jobs, sorts).Ok? <==>
      forall k :: 0 <= k < |jobs| && sorts[k] != [] ==> HasColumn(sorts[k], jobs[k].kind.colName)
  {
    if jobs != [] {
      var n := |jobs| - 1;
      RunOkIff(jobs[..n], sorts[..n]);
      assert forall k :: 0 <= k < n ==> jobs[..n][k] == jobs[k] && sorts[..n][k] == sorts[k];
    }
  }

  /** The error raised is the KeyError of the first such pair. */
  lemma {:induction false} RunErr(jobs: seq<Job>, sorts: seq<Series>, e: Error)
    requires |sorts| == |jobs| && Run(jobs, sorts) == Err(e)
    ensures exists k :: (0 <= k < |jobs| && sorts[k] != [] && !HasColumn(sorts[k], jobs[k].kind.colName)
      && e == MissingColumn(jobs[k].kind.colName)
      && forall l :: 0 <= l < k && sorts[l] != [] ==> HasColumn(sorts[l], jobs[l].kind.colName))
  {
    var n := |jobs| - 1;
    var r := Run(jobs[..n], sorts[..n]);
    assert forall k :: 0 <= k < n ==> jobs[..n][k] == jobs[k] && sorts[..n][k] == sorts[k];
    if r.Err? {
      RunErr(jobs[..n], sorts[..n], e);
      var k :| 0 <= k < n && sorts[..n][k] != [] && !HasColumn(sorts[..n][k], jobs[..n][k].kind.colName)
        && e == MissingColumn(jobs[..n][k].kind.colName)
        && forall l :: 0 <= l < k && sorts[..n][l] != [] ==> HasColumn(sorts[..n][l], jobs[..n][l].kind.colName);
      assert sorts[k] != [] && !HasColumn(sorts[k], jobs[k].kind.colName);
    } else {
      RunOkIff(jobs[..n], sorts[..n]);
      assert sorts[n] != [] && !HasColumn(sorts[n], jobs[n].kind.colName);
    }
  }

  // ---- what the dictionaries hold after a run ----

  /** The keys assigned during the run, in order, repeats included. */
  function StoredKeys(jobs: seq<Job>, sorts: seq<Series>): seq<string>
    requires |sorts| == |jobs|
  {
    if jobs == [] then []
    else
      var n := |jobs| - 1;
      StoredKeys(jobs[..n], sorts[..n]) + (if sorts[n] != [] then [JobKey(jobs[n])] else [])
  }

  /** The last pair that stored a table under `key`, if any. */
  function LastWriter(jobs: seq<Job>, sorts: seq<Series>, key: string): (w: Option<nat>)
    requires |sorts| == |jobs|
    ensures w.Some? ==> w.value < |jobs| && sorts[w.value] != [] && JobKey(jobs[w.value]) == key
    ensures w.Some? ==> forall l :: w.value < l < |jobs| ==> sorts[l] == [] || JobKey(jobs[l]) != key
    ensures w.None? ==> forall l :: 0 <= l < |jobs| ==> sorts[l] == [] || JobKey(jobs[l]) != key
  {
    if jobs == [] then None
    else
      var n := |jobs| - 1;
      if sorts[n] != [] && JobKey(jobs[n]) == key then Some(n)
      else
        assert forall l :: 0 <= l < n ==> jobs[..n][l] == jobs[l] && sorts[..n][l] == sorts[l];
        LastWriter(jobs[..n], sorts[..n], key)
  }

  /** After a run that did not raise, both dictionaries have the same keys, in
      the order in which the keys were first assigned. */
  lemma {:induction false} RunKeys(jobs: seq<Job>, sorts: seq<Series>, st: Stores)
    requires |sorts| == |jobs| && Run(jobs, sorts) == Ok(st)
    ensures Keys(st.raw) == Keys(st.smoothed) == Dedup(StoredKeys(jobs, sorts))
  {
    if jobs != [] {
      var n := |jobs| - 1;
      var r := Run(jobs[..n], sorts[..n]);
      assert r.Ok?;
      RunKeys(jobs[..n], sorts[..n], r.value);
      var stored := StoredKeys(jobs[..n], sorts[..n]);
      if sorts[n] != [] {
        var key := JobKey(jobs[n]);
        PutKeys(r.value.raw, key, sorts[n]);
        PutKeys(r.value.smoothed, key, MovingAverage(sorts[n], jobs[n].kind.colName));
        DedupSnoc(stored, key);
      } else {
        assert StoredKeys(jobs, sorts) == stored;
      }
    }
  }

  /** After a run that did not raise, `raw_data[key]` is the table last sorted for
      `key`, and the key is absent when no pair stored one. */
  lemma {:induction false} RunRaw(jobs: seq<Job>, sorts: seq<Series>, st: Stores, key: string)
    requires |sorts| == |jobs| && Run(jobs, sorts) == Ok(st)
    ensures Get(st.raw, key) ==
      match LastWriter(jobs, sorts, key)
      case None => None
      case Some(k) => Some(sorts[k])
  {
    if jobs != [] {
      var n := |jobs| - 1;
      var r := Run(jobs[..n], sorts[..n]);
      assert r.Ok?;
      RunRaw(jobs[..n], sorts[..n], r.value, key);
      var w := LastWriter(jobs[..n], sorts[..n], key);
      assert forall k :: 0 <= k < n ==> sorts[..n][k] == sorts[k];
      if sorts[n] != [] && JobKey(jobs[n]) == key {
        PutGet(r.value.raw, key, sorts[n]);
      } else {
        assert LastWriter(jobs, sorts, key) == w;
        if sorts[n] != [] {
          PutGet(r.value.raw, JobKey(jobs[n]), sorts[n]);
        }
      }
    }
  }

  /** After a run that did not raise, `smoothed_data[key]` is the smoothed copy of
      the table last sorted for `key`. */
  lemma {:induction false} RunSmoothed(jobs: seq<Job>, sorts: seq<Series>, st: Stores, key: string)
    requires |sorts| == |jobs| && Run(jobs, sorts) == Ok(st)
    ensures forall k :: 0 <= k < |jobs| && sorts[k] != [] ==> HasColumn(sorts[k], jobs[k].kind.colName)
    ensures Get(st.smoothed, key) ==
      match LastWriter(jobs, sorts, key)
      case None => None
      case Some(k) => Some(MovingAverage(sorts[k], jobs[k].kind.colName))
  {
    RunOkIff(jobs, sorts);
    if jobs != [] {
      var n := |jobs| - 1;
      var r := Run(jobs[..n], sorts[..n]);
      assert r.Ok?;
      RunOkIff(jobs[..n], sorts[..n]);
      RunSmoothed(jobs[..n], sorts[..n], r.value, key);
      var w := LastWriter(jobs[..n], sorts[..n], key);
      assert forall k :: 0 <= k < n ==> jobs[..n][k] == jobs[k] && sorts[..n][k] == sorts[k];
      if sorts[n] != [] && JobKey(jobs[n]) == key {
        PutGet(r.value.smoothed, key, MovingAverage(sorts[n], jobs[n].kind.colName));
      } else {
        assert LastWriter(jobs, sorts, key) == w;
        if sorts[n] != [] {
          PutGet(r.value.smoothed, JobKey(jobs[n]), MovingAverage(sorts[n], jobs[n].kind.colName));
        }
      }
    }
  }

  /** With distinct keys, the only writer of a pair's key is that pair itself. */
  lemma LastWriterDistinct(jobs: seq<Job>, sorts: seq<Series>, k: nat)
    requires |sorts| == |jobs| && DistinctKeys(jobs) && k < |jobs|
    ensures LastWriter(jobs, sorts, JobKey(jobs[k])) == if sorts[k] != [] then Some(k) else None
  {
    var w := LastWriter(jobs, sorts, JobKey(jobs[k]));
    if w.Some? {
      var v := w.value;
      assert JobKey(jobs[v]) == JobKey(jobs[k]);
      assert !(v < k) && !(k < v);
    }
  }

  /** The promise of `process_timeline_data` for the dashboard's dictionaries:
      for a keyword of the filter dictionary and a timeline type, the key
      `"<api>:<keyword>"` is in `raw_data` exactly when that fetch did not raise
      and returned rows; it then holds those rows sorted by timestamp, and
      `smoothed_data` holds the moving average of that sorted table. */
  lemma PipelineEntry(filters: Dict<Filter>, types: seq<TimelineType>, fetch: Fetcher, sorts: seq<Series>,
                      st: Stores, keyword: string, f: Filter, kind: TimelineType)
    requires NoDuplicates(Keys(filters)) && DistinctKinds(types)
    requires ValidSorts(Jobs(filters, types), fetch, sorts) && Run(Jobs(filters, types), sorts) == Ok(st)
    requires (keyword, f) in filters && kind in types
    ensures var key, rows := SeriesKey(kind.searchApi, keyword), FetchedRows(fetch, Job(keyword, f, kind));
      && (key in Keys(st.raw) <==> rows != [])
      && (key in Keys(st.smoothed) <==> rows != [])
      && (rows != [] ==>
            && Get(st.raw, key).Some? && IsSortOf(Get(st.raw, key).value, rows)
            && HasColumn(Get(st.raw, key).value, kind.colName)
            && Get(st.smoothed, key) == Some(MovingAverage(Get(st.raw, key).value, kind.colName)))
  {
    var jobs := Jobs(filters, types);
    var job := Job(keyword, f, kind);
    JobsMembership(filters, types, job);
    var k :| 0 <= k < |jobs| && jobs[k] == job;
    JobKeysDistinct(filters, types);
    LastWriterDistinct(jobs, sorts, k);
    var key := JobKey(job);
    RunRaw(jobs, sorts, st, key);
    RunSmoothed(jobs, sorts, st, key);
    RunKeys(jobs, sorts, st);
    assert sorts[k] == [] <==> FetchedRows(fetch, job) == [] by {
      assert |multiset(sorts[k])| == |sorts[k]|;
      assert |multiset(FetchedRows(fetch, job))| == |FetchedRows(fetch, job)|;
    }
  }

  lemma PrefixSnoc<T>(s: seq<T>, t: nat)
    requires t < |s|
    ensures s[..t + 1] == s[..t] + [s[t]]
  {
  }

  lemma PrefixOfConcat<T>(a: seq<T>, s: seq<T>, k: nat)
    requires k <= |s|
    ensures a + s[..k] <= a + s
  {
    assert (a + s)[..|a| + k] == a + s[..k];
  }

  /** The body of the inner loop for one pair (main.py:59-74): fetch with the
      exception swallowed, and for a non-empty table sort it in place and assign
      both dictionaries; `sorted` is the order the sort produced. */
  method ProcessPair(st: Stores, job: Job, fetch: Fetcher) returns (r: Result<Stores, Error>, ghost sorted: Series)
    ensures IsSortOf(sorted, FetchedRows(fetch, job))
    ensures r == Step(st, job, sorted)
  {
    var rows: Series := [];
    var fetched := fetch(job.kind.searchApi, job.filter);
    match fetched {
      case FetchRaised =>
      case FetchedTable(table) => rows := table;
    }
    if rows == [] {
      sorted := [];
      return Ok(st), sorted;
    }
    var a := new Row[|rows|](k requires 0 <= k < |rows| => rows[k]);
    assert a[..] == rows;
    SortByDatetime(a);
    var table := a[..];
    sorted := table;
    if !HasColumn(table, job.kind.colName) {
      return Err(MissingColumn(job.kind.colName)), sorted;
    }
    var key := SeriesKey(job.kind.searchApi, job.keyword);
    r := Ok(Stores(Put(st.raw, key, table), Put(st.smoothed, key, MovingAverage(table, job.kind.colName))));
  }

  /** The inner loop for one keyword (main.py:58-74), from the dictionaries
      `st`: `sorts` are the orders of the tables of the types visited. */
  method ProcessKeyword(st: Stores, keyword: string, f: Filter, types: seq<TimelineType>, fetch: Fetcher)
    returns (r: Result<Stores, Error>, ghost sorts: seq<Series>)
    ensures |sorts| <= |types|
    ensures ValidSorts(JobsFor(keyword, f, types)[..|sorts|], fetch, sorts)
    ensures r == RunFrom(Ok(st), JobsFor(keyword, f, types)[..|sorts|], sorts)
    ensures r.Ok? ==> |sorts| == |types|
  {
    ghost var row := JobsFor(keyword, f, types);
    var cur := st;
    sorts := [];
    var t := 0;
    while t < |types|
      invariant 0 <= t <= |types| && |sorts| == t
      invariant ValidSorts(row[..t], fetch, sorts)
      invariant RunFrom(Ok(st), row[..t], sorts) == Ok(cur)
    {
      var job := Job(keyword, f, types[t]);
      var next;
      ghost var sorted;
      next, sorted := ProcessPair(cur, job, fetch);
      PrefixSnoc(row, t);
      RunFromSnoc(Ok(st), row[..t], sorts, job, sorted);
      sorts := sorts + [sorted];
      if next.Err? {
        return next, sorts;
      }
      cur := next.value;
      t := t + 1;
    }
    r := Ok(cur);
  }

  /** `process_timeline_data(filters, timeline_types)`. The service is the
      parameter `fetch`; `done` are the pairs visited before the run ended and
      `sorts` the orders the sort put their tables in. The run visits every pair
      unless a KeyError ends it. */
  method ProcessTimelineData(filters: Dict<Filter>, types: seq<TimelineType>, fetch: Fetcher)
    returns (r: Result<Stores, Error>, ghost done: seq<Job>, ghost sorts: seq<Series>)
    ensures done <= Jobs(filters, types)
    ensures ValidSorts(done, fetch, sorts)
    ensures r == Run(done, sorts)
    ensures r.Ok? ==> done == Jobs(filters, types)
  {
    var st := Stores([], []);
    done, sorts := [], [];
    var i := 0;
    while i < |filters|
      invariant 0 <= i <= |filters|
      invariant done == Jobs(filters[..i], types)
      invariant ValidSorts(done, fetch, sorts)
      invariant Run(done, sorts) == Ok(st)
    {
      var (keyword, f) := filters[i];
      ghost var row := JobsFor(keyword, f, types);
      assert filters[..i + 1][..i] == filters[..i];
      assert Jobs(filters[..i + 1], types) == done + row;
      JobsPrefix(filters, types, i + 1);
      var next;
      ghost var more;
      next, more := ProcessKeyword(st, keyword, f, types, fetch);
      ghost var visited := row[..|more|];
      RunFromAppend(Ok(Stores([], [])), done, sorts, visited, more);
      ValidSortsAppend(done, sorts, visited, more, fetch);
      PrefixOfConcat(done, row, |more|);
      done, sorts := done + visited, sorts + more;
      if next.Err? {
        return next, done, sorts;
      }
      assert visited == row;
      st := next.value;
      i := i + 1;
    }
    assert filters[..|filters|] == filters;
    r := Ok(st);
  }
}
