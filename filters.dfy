/** The search-button block of main.py (lines 101-123): normalising the
    comma-separated domain and country fields and building one query filter
    per keyword, keyed by the keyword text. */
module FilterBuilder {
  import opened OrderedDict
  import opened Calendar
  import opened Text

  /** A filter field value: the single string the service receives when the
      field has no comma, or a list of strings. */
  datatype FilterVal = Scalar(text: string) | Many(items: seq<string>)

  /** The query descriptor `Filters(keyword=…, start_date=…, end_date=…,
      domain=…, country=…, theme=…)`. */
  datatype Filter = Filter(keyword: string, startDate: string, endDate: string,
                           domain: FilterVal, country: FilterVal, theme: string)

  /** Each string of `parts`, stripped. */
  function StripAll(parts: seq<string>): seq<string>
  {
    seq(|parts|, i requires 0 <= i < |parts| => Strip(parts[i]))
  }

  /** The domain / country rule of main.py:104-112. */
  function SplitField(field: string): FilterVal
  {
    var parts := Split(field, ',');
    if |parts| == 1 then
      (if field != "" then Scalar(Strip(field)) else Many([]))
    else
      (if field != "" then Many(StripAll(parts)) else Many([]))
  }

  /** A field without a comma becomes its stripped text, except the empty field,
      which becomes the empty list. */
  lemma SplitFieldWithoutComma(field: string)
    requires ',' !in field
    ensures SplitField(field) == if field == "" then Many([]) else Scalar(Strip(field))
  {
    CountZero(field, ',');
  }

  /** A field with k commas becomes the list of its k + 1 comma-separated
      pieces, each stripped, in order, empty pieces kept. */
  lemma SplitFieldWithCommas(field: string)
    requires ',' in field
    ensures SplitField(field).Many?
    ensures var items := SplitField(field).items;
      && |items| == Count(field, ',') + 1
      && forall i :: 0 <= i < |items| ==> items[i] == Strip(Split(field, ',')[i])
  {
    CountZero(field, ',');
  }

  /** The field is a scalar exactly when it is non-empty and has no comma. */
  lemma SplitFieldScalarIff(field: string)
    ensures SplitField(field).Scalar? <==> field != "" && ',' !in field
  {
    CountZero(field, ',');
  }

  /** A non-empty field of whitespace only becomes the empty scalar. */
  lemma SplitFieldBlank(field: string)
    requires field != ""
    requires AllSpace(field)
    ensures SplitField(field) == Scalar("")
  {
    assert !IsSpace(',');
    assert ',' !in field;
    SplitFieldWithoutComma(field);
    StripBlank(field);
  }

  /** Round trip: a comma-joined list of at least two comma-free items
      without surrounding whitespace is split back into that list. */
  lemma SplitFieldOfJoin(items: seq<string>)
    requires |items| >= 2
    requires forall i :: 0 <= i < |items| ==> ',' !in items[i]
    requires forall i :: 0 <= i < |items| ==> Unpadded(items[i])
    ensures SplitField(Join(items, ',')) == Many(items)
  {
    var field := Join(items, ',');
    assert field != "" by {
      assert field == items[0] + [','] + Join(items[1..], ',');
    }
    SplitJoin(items, ',');
    assert SplitField(field) == Many(StripAll(items));
    StripAllUnpadded(items);
  }

  lemma StripAllUnpadded(items: seq<string>)
    requires forall i :: 0 <= i < |items| ==> Unpadded(items[i])
    ensures StripAll(items) == items
  {
    forall i | 0 <= i < |items| ensures Strip(items[i]) == items[i] {
      StripUnpadded(items[i]);
    }
  }

  /** Every stripped piece is unpadded, and stripping it again changes nothing. */
  lemma StripAllItemsUnpadded(parts: seq<string>)
    ensures forall i :: 0 <= i < |parts| ==> Unpadded(StripAll(parts)[i])
    ensures StripAll(StripAll(parts)) == StripAll(parts)
  {
    forall i | 0 <= i < |parts| ensures Unpadded(StripAll(parts)[i]) {
      var k := StripIsSlice(parts[i]);
    }
    StripAllUnpadded(StripAll(parts));
  }

  lemma SplitFieldExamples()
    ensures SplitField("") == Many([])
    ensures SplitField("a,,b") == Many(["a", "", "b"])
  {
    assert Join(["a", "", "b"], ',') == "a,,b";
    SplitFieldOfJoin(["a", "", "b"]);
  }

  /** The dashboard's default inputs: a two-domain list and a two-country list. */
  lemma SplitFieldDefaultDomains()
    ensures SplitField("bbc.co.uk,nytimes.com") == Many(["bbc.co.uk", "nytimes.com"])
  {
    assert Join(["bbc.co.uk", "nytimes.com"], ',') == "bbc.co.uk,nytimes.com";
    SplitFieldOfJoin(["bbc.co.uk", "nytimes.com"]);
  }

  lemma SplitFieldDefaultCountries()
    ensures SplitField("UK,US") == Many(["UK", "US"])
  {
    assert Join(["UK", "US"], ',') == "UK,US";
    SplitFieldOfJoin(["UK", "US"]);
  }

  /** The filter every keyword gets: only the keyword differs between entries. */
  function MakeFilter(keyword: string, startDate: Date, endDate: Date,
                      domain: string, country: string, theme: string): Filter
    requires ValidDate(startDate) && ValidDate(endDate)
  {
    Filter(keyword, IsoDateText(startDate), IsoDateText(endDate),
           SplitField(domain), SplitField(country), theme)
  }

  /** Every entry of `d` is the filter `common` with its own key as keyword. */
  ghost predicate KeyedCopies(d: Dict<Filter>, common: Filter)
  {
    forall j :: 0 <= j < |d| ==> d[j].1 == common.(keyword := d[j].0)
  }

  /** main.py:102-123: `filters[keyword] = Filters(...)` for each keyword in
      turn. The dictionary has one entry per distinct keyword, in order of first
      occurrence, and every entry is the filter of its own key. */
  method BuildFilters(keywords: seq<string>, startDate: Date, endDate: Date,
                      domain: string, country: string, theme: string)
    returns (filters: Dict<Filter>)
    requires ValidDate(startDate) && ValidDate(endDate)
    ensures Keys(filters) == Dedup(keywords)
    ensures forall i :: 0 <= i < |filters| ==>
      filters[i].1 == MakeFilter(filters[i].0, startDate, endDate, domain, country, theme)
  {
    var domains := SplitField(domain);
    var countries := SplitField(country);
    var start, end := IsoDateText(startDate), IsoDateText(endDate);
    ghost var common := Filter("", start, end, domains, countries, theme);
    filters := [];
    var i := 0;
    while i < |keywords|
      invariant 0 <= i <= |keywords|
      invariant Keys(filters) == Dedup(keywords[..i])
      invariant KeyedCopies(filters, common)
    {
      var keyword := keywords[i];
      assert keywords[..i + 1] == keywords[..i] + [keyword];
      DedupSnoc(keywords[..i], keyword);
      var f := Filter(keyword, start, end, domains, countries, theme);
      PutKeyedCopy(filters, keyword, common);
      PutKeys(filters, keyword, f);
      filters := Put(filters, keyword, f);
      i := i + 1;
    }
    assert keywords[..i] == keywords;
  }

  lemma {:induction false} PutKeyedCopy(d: Dict<Filter>, k: string, common: Filter)
    requires KeyedCopies(d, common)
    ensures KeyedCopies(Put(d, k, common.(keyword := k)), common)
  {
    if d != [] && d[0].0 != k {
      PutKeyedCopy(d[1..], k, common);
      assert Put(d, k, common.(keyword := k)) == [d[0]] + Put(d[1..], k, common.(keyword := k));
    }
  }

  /** The dashboard's three keyword fields: distinct keywords give three
      entries in field order; a repeated keyword keeps its first position. */
  lemma BuildFiltersKeys(k1: string, k2: string, k3: string)
    ensures k1 != k2 && k2 != k3 && k1 != k3 ==> Dedup([k1, k2, k3]) == [k1, k2, k3]
    ensures k1 == k3 && k1 != k2 ==> Dedup([k1, k2, k3]) == [k1, k2]
  {
    DedupSnoc([k1], k2);
    DedupSnoc([k1, k2], k3);
    assert [k1] + [k2] == [k1, k2];
    assert [k1, k2] + [k3] == [k1, k2, k3];
  }
}
