/** `generate_artical_data` (main.py:42-51): for every keyword of the filter
    dictionary, search articles, tag the rows with the keyword, keep seven
    columns, reformat the seen date and append the rows to one table. */
module Articles {
  import opened Base
  import opened OrderedDict
  import opened Calendar
  import opened FilterBuilder

  /** One row of `all_articles`: exactly its seven columns, in order. */
  datatype Article = Article(keyword: string, url: string, title: string, seenDate: string,
                             domain: string, language: string, sourceCountry: string)

  /** The columns taken from the service's table besides the keyword (main.py:48). */
  const SourceColumns: seq<string> := ["url", "title", "seendate", "domain", "language", "sourcecountry"]

  /** One row of the service's table, by column name. */
  type ArticleRow = map<string, string>

  /** What one call `gd.article_search(f)` does: raise, or return a table. */
  datatype ArticleSearch = SearchFailed | ArticleTable(rows: seq<ArticleRow>)

  /** The article service, as a function of the filter. */
  type Searcher = Filter -> ArticleSearch

  predicate HasSourceColumns(rows: seq<ArticleRow>)
  {
    forall j, c :: 0 <= j < |rows| && 0 <= c < |SourceColumns| ==> SourceColumns[c] in rows[j]
  }

  /** The first of `cols` that some row lacks. pandas' KeyError for the projection
      lists every missing column; the model's error keeps only this first one. */
  function MissingColumnOf(rows: seq<ArticleRow>, cols: seq<string>): (m: Option<string>)
    ensures m.Some? ==> m.value in cols && exists j :: 0 <= j < |rows| && m.value !in rows[j]
    ensures m.None? <==> forall j, c :: 0 <= j < |rows| && 0 <= c < |cols| ==> cols[c] in rows[j]
  {
    if cols == [] then None
    else if exists j :: 0 <= j < |rows| && cols[0] !in rows[j] then Some(cols[0])
    else
      var m := MissingColumnOf(rows, cols[1..]);
      assert forall c :: 0 < c < |cols| ==> cols[c] == cols[1..][c - 1];
      m
  }

  /** The projected row of a table row, tagged with `keyword`, with the seen date `seen`. */
  function RowArticle(keyword: string, row: ArticleRow, seen: string): Article
    requires forall c :: 0 <= c < |SourceColumns| ==> SourceColumns[c] in row
  {
    assert "url" == SourceColumns[0] && "title" == SourceColumns[1] && "domain" == SourceColumns[3];
    assert "language" == SourceColumns[4] && "sourcecountry" == SourceColumns[5];
    Article(keyword, row["url"], row["title"], seen, row["domain"], row["language"], row["sourcecountry"])
  }

  /** The `seendate` cell of a row. */
  function SeenDateOf(row: ArticleRow): string
    requires forall c :: 0 <= c < |SourceColumns| ==> SourceColumns[c] in row
  {
    assert "seendate" == SourceColumns[2];
    row["seendate"]
  }

  /** `articles["seendate"].apply(...)` over the projected rows, in row order;
      the first date that does not parse raises ValueError. */
  function ReformatRows(keyword: string, rows: seq<ArticleRow>): Result<seq<Article>, Error>
    requires HasSourceColumns(rows)
  {
    if rows == [] then Ok([])
    else
      assert HasSourceColumns(rows[1..]) by {
        assert forall j :: 0 <= j < |rows| - 1 ==> rows[1..][j] == rows[j + 1];
      }
      match ReformatSeenDate(SeenDateOf(rows[0]))
      case Err(e) => Err(e)
      case Ok(seen) =>
        match ReformatRows(keyword, rows[1..])
        case Err(e) => Err(e)
        case Ok(rest) => Ok([RowArticle(keyword, rows[0], seen)] + rest)
  }

  /** Tagging, projecting and reformatting one non-empty table (main.py:47-49). */
  function NormaliseArticles(keyword: string, rows: seq<ArticleRow>): Result<seq<Article>, Error>
  {
    match MissingColumnOf(rows, SourceColumns)
    case Some(c) => Err(MissingColumn(c))
    case None => ReformatRows(keyword, rows)
  }

  /** `DataFrame.empty` for a table built from the rows: its columns are the
      keys of its rows, and it is empty when it has no row or no column. */
  predicate TableEmpty(rows: seq<ArticleRow>)
  {
    forall j :: 0 <= j < |rows| ==> |rows[j]| == 0
  }

  /** What one keyword contributes: the search exception escapes, an empty table
      contributes nothing, a non-empty one its normalised rows. */
  function KeywordBlock(keyword: string, found: ArticleSearch): Result<seq<Article>, Error>
  {
    match found
    case SearchFailed => Err(SearchRaised)
    case ArticleTable(rows) => if TableEmpty(rows) then Ok([]) else NormaliseArticles(keyword, rows)
  }

  /** What each keyword's search comes to, in dictionary order. */
  function Outcomes(filters: Dict<Filter>, search: Searcher): (os: seq<Result<seq<Article>, Error>>)
    ensures |os| == |filters|
  {
    seq(|filters|, i requires 0 <= i < |filters| => KeywordBlock(filters[i].0, search(filters[i].1)))
  }

  /** The blocks appended in order (`pd.concat`), or the first exception. */
  function Collect(os: seq<Result<seq<Article>, Error>>): Result<seq<Article>, Error>
  {
    if os == [] then Ok([])
    else
      var n := |os| - 1;
      match Collect(os[..n])
      case Err(e) => Err(e)
      case Ok(all) =>
        match os[n]
        case Err(e) => Err(e)
        case Ok(block) => Ok(all + block)
  }

  /** The loop of `generate_artical_data`: every keyword's outcome, collected in
      dictionary order. */
  function ArticleData(filters: Dict<Filter>, search: Searcher): Result<seq<Article>, Error>
  {
    Collect(Outcomes(filters, search))
  }

  /** `generate_artical_data(filters)`, the service being the parameter `search`. */
  method GenerateArticleData(filters: Dict<Filter>, search: Searcher) returns (r: Result<seq<Article>, Error>)
    ensures r == ArticleData(filters, search)
  {
    ghost var os := Outcomes(filters, search);
    var all: seq<Article> := [];
    var i := 0;
    while i < |filters|
      invariant 0 <= i <= |filters|
      invariant Collect(os[..i]) == Ok(all)
    {
      var (keyword, f) := filters[i];
      var found := search(f);
      assert os[i] == KeywordBlock(keyword, found);
      CollectStep(os, i, all);
      match found {
        case SearchFailed =>
          CollectErrSticky(os, i + 1);
          return Err(SearchRaised);
        case ArticleTable(rows) =>
          if !TableEmpty(rows) {
            var block := NormaliseArticles(keyword, rows);
            if block.Err? {
              CollectErrSticky(os, i + 1);
              return Err(block.error);
            }
            all := all + block.value;
          } else {
            assert all + [] == all;
          }
      }
      i := i + 1;
    }
    assert os[..i] == os;
    r := Ok(all);
  }

  /** Collecting one more outcome after a stretch that did not raise. */
  lemma CollectStep(os: seq<Result<seq<Article>, Error>>, i: nat, all: seq<Article>)
    requires i < |os| && Collect(os[..i]) == Ok(all)
    ensures Collect(os[..i + 1]) == if os[i].Err? then Err(os[i].error) else Ok(all + os[i].value)
  {
    assert os[..i + 1][..i] == os[..i];
    assert os[..i + 1][i] == os[i];
  }

  /** An exception ends the loop: the later keywords change nothing. */
  lemma {:induction false} CollectErrSticky(os: seq<Result<seq<Article>, Error>>, i: nat)
    requires i <= |os| && Collect(os[..i]).Err?
    ensures Collect(os) == Collect(os[..i])
    decreases |os|
  {
    if i < |os| {
      var n := |os| - 1;
      assert os[..n][..i] == os[..i];
      CollectErrSticky(os[..n], i);
    } else {
      assert os[..i] == os;
    }
  }

  // ---- what one keyword contributes ----

  /** Reformatting succeeds exactly when every seen date parses; it then keeps
      the rows one for one, each tagged and projected, with its date shown as
      `"<Mon> <DD>, <YYYY> <hh>:<mm>"`. */
  lemma {:induction false} ReformatRowsOk(keyword: string, rows: seq<ArticleRow>)
    requires HasSourceColumns(rows)
    ensures ReformatRows(keyword, rows).Ok? <==> forall j :: 0 <= j < |rows| ==> ParseSeenDate(SeenDateOf(rows[j])).Some?
    ensures ReformatRows(keyword, rows).Ok? ==>
      var block := ReformatRows(keyword, rows).value;
      && |block| == |rows|
      && forall j :: 0 <= j < |rows| ==>
           block[j] == RowArticle(keyword, rows[j], DisplayText(ParseSeenDate(SeenDateOf(rows[j])).value))
  {
    if rows != [] {
      assert forall j :: 0 <= j < |rows| - 1 ==> rows[1..][j] == rows[j + 1];
      ReformatRowsOk(keyword, rows[1..]);
    }
  }

  /** The ValueError is raised for the first seen date that does not parse. */
  lemma {:induction false} ReformatRowsErr(keyword: string, rows: seq<ArticleRow>, e: Error)
    requires HasSourceColumns(rows) && ReformatRows(keyword, rows) == Err(e)
    ensures exists j :: (0 <= j < |rows| && ParseSeenDate(SeenDateOf(rows[j])).None?
      && e == BadSeenDate(SeenDateOf(rows[j]))
      && forall l :: 0 <= l < j ==> ParseSeenDate(SeenDateOf(rows[l])).Some?)
  {
    assert forall j :: 0 <= j < |rows| - 1 ==> rows[1..][j] == rows[j + 1];
    if ParseSeenDate(SeenDateOf(rows[0])).Some? {
      ReformatRowsErr(keyword, rows[1..], e);
      var j :| 0 <= j < |rows| - 1 && ParseSeenDate(SeenDateOf(rows[1..][j])).None?
        && e == BadSeenDate(SeenDateOf(rows[1..][j]))
        && forall l :: 0 <= l < j ==> ParseSeenDate(SeenDateOf(rows[1..][l])).Some?;
      assert ParseSeenDate(SeenDateOf(rows[j + 1])).None?;
    } else {
      assert ParseSeenDate(SeenDateOf(rows[0])).None?;
    }
  }

  /** One keyword's articles: the search exception escapes; an empty table (no
      row, or rows without any field) contributes no rows; otherwise the block
      has one row per returned row, every one tagged with the keyword. It fails
      only through the search, a missing column or a seen date that does not parse. */
  lemma KeywordBlockOk(keyword: string, found: ArticleSearch)
    ensures found.SearchFailed? ==> KeywordBlock(keyword, found) == Err(SearchRaised)
    ensures found.ArticleTable? && TableEmpty(found.rows) ==> KeywordBlock(keyword, found) == Ok([])
    ensures found.ArticleTable? ==>
      (KeywordBlock(keyword, found).Ok? <==>
        TableEmpty(found.rows) || (HasSourceColumns(found.rows) &&
          forall j :: 0 <= j < |found.rows| ==> ParseSeenDate(SeenDateOf(found.rows[j])).Some?))
    ensures KeywordBlock(keyword, found).Ok? ==>
      var block := KeywordBlock(keyword, found).value;
      && (found.ArticleTable? && !TableEmpty(found.rows) ==> |block| == |found.rows|)
      && forall j :: 0 <= j < |block| ==> block[j].keyword == keyword
  {
    if found.ArticleTable? && !TableEmpty(found.rows) && HasSourceColumns(found.rows) {
      ReformatRowsOk(keyword, found.rows);
    }
  }

  /** A table of one row without any field is `.empty`, so it is skipped. */
  lemma FieldlessRowSkipped(keyword: string)
    ensures KeywordBlock(keyword, ArticleTable([map[]])) == Ok([])
  {
    assert TableEmpty([map[]]);
  }

  // ---- the whole table ----

  /** The outcomes of a prefix of the dictionary are a prefix of its outcomes. */
  lemma OutcomesPrefix(filters: Dict<Filter>, search: Searcher, n: nat)
    requires n <= |filters|
    ensures Outcomes(filters[..n], search) == Outcomes(filters, search)[..n]
  {
    var a, b := Outcomes(filters[..n], search), Outcomes(filters, search)[..n];
    forall i | 0 <= i < n ensures a[i] == b[i] {
      assert filters[..n][i] == filters[i];
    }
  }

  /** The block of each outcome, nothing for an exception. */
  function Values(os: seq<Result<seq<Article>, Error>>): (bs: seq<seq<Article>>)
    ensures |bs| == |os|
  {
    seq(|os|, i requires 0 <= i < |os| => match os[i] case Ok(block) => block case Err(_) => [])
  }

  /** What each keyword contributes, in dictionary order (nothing for one that raised). */
  function Blocks(filters: Dict<Filter>, search: Searcher): seq<seq<Article>>
  {
    Values(Outcomes(filters, search))
  }

  /** The blocks one after the other. */
  function Flatten(bs: seq<seq<Article>>): seq<Article>
  {
    if bs == [] then [] else Flatten(bs[..|bs| - 1]) + bs[|bs| - 1]
  }

  /** Collecting succeeds exactly when no outcome is an exception, and then gives
      the blocks one after the other. */
  lemma {:induction false} CollectFlatten(os: seq<Result<seq<Article>, Error>>)
    ensures Collect(os).Ok? <==> forall i :: 0 <= i < |os| ==> os[i].Ok?
    ensures Collect(os).Ok? ==> Collect(os).value == Flatten(Values(os))
  {
    if os != [] {
      var n := |os| - 1;
      CollectFlatten(os[..n]);
      assert forall i :: 0 <= i < n ==> os[..n][i] == os[i];
      assert Values(os)[..n] == Values(os[..n]);
    }
  }

  /** The table is built exactly when no keyword raised, and it is then the
      concatenation of the keywords' blocks in dictionary order. */
  lemma ArticleDataBlocks(filters: Dict<Filter>, search: Searcher)
    ensures ArticleData(filters, search).Ok? <==>
      forall i :: 0 <= i < |filters| ==> KeywordBlock(filters[i].0, search(filters[i].1)).Ok?
    ensures ArticleData(filters, search).Ok? ==> ArticleData(filters, search).value == Flatten(Blocks(filters, search))
  {
    var os := Outcomes(filters, search);
    CollectFlatten(os);
    assert forall i :: 0 <= i < |filters| ==> os[i] == KeywordBlock(filters[i].0, search(filters[i].1));
  }

  /** The blocks of a prefix of the dictionary are a prefix of its blocks. */
  lemma BlocksPrefix(filters: Dict<Filter>, search: Searcher, n: nat)
    requires n <= |filters|
    ensures Blocks(filters[..n], search) == Blocks(filters, search)[..n]
  {
    OutcomesPrefix(filters, search, n);
    var os := Outcomes(filters, search);
    assert Values(os[..n]) == Values(os)[..n];
  }

  /** The rows tagged with `keyword`, in order. */
  function TaggedWith(all: seq<Article>, keyword: string): seq<Article>
  {
    if all == [] then []
    else TaggedWith(all[..|all| - 1], keyword) + (if all[|all| - 1].keyword == keyword then [all[|all| - 1]] else [])
  }

  lemma {:induction false} TaggedWithAppend(x: seq<Article>, y: seq<Article>, keyword: string)
    ensures TaggedWith(x + y, keyword) == TaggedWith(x, keyword) + TaggedWith(y, keyword)
    decreases |y|
  {
    if y != [] {
      var n := |y| - 1;
      TaggedWithAppend(x, y[..n], keyword);
      assert (x + y)[..|x + y| - 1] == x + y[..n];
    } else {
      assert x + y == x;
    }
  }

  /** A block whose rows all carry one keyword keeps them all for it and none for another. */
  lemma {:induction false} TaggedWithUniform(block: seq<Article>, tag: string, keyword: string)
    requires forall j :: 0 <= j < |block| ==> block[j].keyword == tag
    ensures TaggedWith(block, keyword) == if tag == keyword then block else []
  {
    if block != [] {
      var n := |block| - 1;
      var p, last := block[..n], block[n];
      assert forall j :: 0 <= j < n ==> p[j] == block[j];
      TaggedWithUniform(p, tag, keyword);
      assert last.keyword == tag;
      if tag == keyword {
        assert TaggedWith(block, keyword) == p + [last];
        assert p + [last] == block;
      } else {
        assert TaggedWith(block, keyword) == [] + [];
      }
    }
  }

  /** A table that was built is the table of the earlier keywords followed by the last keyword's block. */
  lemma ArticleDataLast(filters: Dict<Filter>, search: Searcher)
    requires filters != [] && ArticleData(filters, search).Ok?
    ensures var n := |filters| - 1;
      && ArticleData(filters[..n], search).Ok?
      && KeywordBlock(filters[n].0, search(filters[n].1)).Ok?
      && ArticleData(filters, search).value ==
           ArticleData(filters[..n], search).value + KeywordBlock(filters[n].0, search(filters[n].1)).value
  {
    var n := |filters| - 1;
    var os := Outcomes(filters, search);
    OutcomesPrefix(filters, search, n);
    assert os[n] == KeywordBlock(filters[n].0, search(filters[n].1));
  }

  /** The rows a built table tags with `keyword`: those of the earlier keywords,
      then the last keyword's block when it is `keyword`. */
  lemma TaggedWithLast(filters: Dict<Filter>, search: Searcher, keyword: string)
    requires filters != [] && ArticleData(filters, search).Ok?
    ensures var n := |filters| - 1;
      && ArticleData(filters[..n], search).Ok?
      && TaggedWith(ArticleData(filters, search).value, keyword) ==
           TaggedWith(ArticleData(filters[..n], search).value, keyword) +
           (if filters[n].0 == keyword then Blocks(filters, search)[n] else [])
  {
    var n := |filters| - 1;
    ArticleDataLast(filters, search);
    var all := ArticleData(filters[..n], search);
    var block := KeywordBlock(filters[n].0, search(filters[n].1));
    KeywordBlockOk(filters[n].0, search(filters[n].1));
    TaggedWithAppend(all.value, block.value, keyword);
    TaggedWithUniform(block.value, filters[n].0, keyword);
    assert Blocks(filters, search)[n] == block.value;
  }

  /** The last keyword's rows, when it occurs nowhere earlier, are its block. */
  lemma TaggedWithLastKeyword(filters: Dict<Filter>, search: Searcher)
    requires filters != [] && ArticleData(filters, search).Ok?
    requires filters[|filters| - 1].0 !in Keys(filters[..|filters| - 1])
    ensures var n := |filters| - 1;
      TaggedWith(ArticleData(filters, search).value, filters[n].0) == Blocks(filters, search)[n]
  {
    var n := |filters| - 1;
    TaggedWithLast(filters, search, filters[n].0);
    TaggedWithNone(filters[..n], search, filters[n].0);
    assert [] + Blocks(filters, search)[n] == Blocks(filters, search)[n];
  }

  /** An earlier keyword that differs from the last one is tagged as in the
      table of the earlier keywords, and its block is the same there. */
  lemma TaggedWithEarlierKeyword(filters: Dict<Filter>, search: Searcher, i: nat)
    requires i < |filters| - 1 && ArticleData(filters, search).Ok?
    requires filters[i].0 != filters[|filters| - 1].0
    ensures var n := |filters| - 1;
      && ArticleData(filters[..n], search).Ok?
      && TaggedWith(ArticleData(filters, search).value, filters[i].0) ==
           TaggedWith(ArticleData(filters[..n], search).value, filters[i].0)
      && Blocks(filters, search)[i] == Blocks(filters[..n], search)[i]
  {
    var n := |filters| - 1;
    TaggedWithLast(filters, search, filters[i].0);
    var earlier := TaggedWith(ArticleData(filters[..n], search).value, filters[i].0);
    assert earlier + [] == earlier;
    BlocksPrefix(filters, search, n);
  }

  /** Rows come grouped by keyword: for a dictionary of distinct keywords, the
      rows tagged with the i-th keyword are exactly what its search contributed. */
  lemma {:induction false} ArticlesOfKeyword(filters: Dict<Filter>, search: Searcher, i: nat)
    requires NoDuplicates(Keys(filters)) && i < |filters| && ArticleData(filters, search).Ok?
    ensures TaggedWith(ArticleData(filters, search).value, filters[i].0) == Blocks(filters, search)[i]
  {
    var n := |filters| - 1;
    DistinctPrefix(filters, n);
    if i < n {
      TaggedWithEarlierKeyword(filters, search, i);
      assert filters[..n][i] == filters[i];
      ArticlesOfKeyword(filters[..n], search, i);
    } else {
      TaggedWithLastKeyword(filters, search);
    }
  }

  /** A keyword absent from the dictionary tags no row. */
  lemma {:induction false} TaggedWithNone(filters: Dict<Filter>, search: Searcher, keyword: string)
    requires keyword !in Keys(filters) && ArticleData(filters, search).Ok?
    ensures TaggedWith(ArticleData(filters, search).value, keyword) == []
  {
    if filters != [] {
      var n := |filters| - 1;
      TaggedWithLast(filters, search, keyword);
      assert Keys(filters[..n]) == Keys(filters)[..n];
      TaggedWithNone(filters[..n], search, keyword);
    }
  }
}
