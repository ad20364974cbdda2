/** `searchLKPDescriptions` (App.tsx:422-475): the lookup-table search. The
    query tokens are expanded through keyword clusters into an ordered set of
    terms; a row matches when some term matches some token of its description
    and id; a table is reported with the rows that match, and tables are
    ranked by how many rows matched. */
module LkpSearch {
  import opened Wrappers
  import opened Text
  import opened Matcher
  import opened Ranking
  import opened Dictionary

  /** The keyword clusters consulted during expansion, in the order of
      App.tsx:428-431 (location, category, collection, item status). */
  type Clusters = seq<seq<string>>

  /** The clusters as the source ships them: four empty placeholder lists. */
  const ShownClusters: Clusters := [[], [], [], []]

  // ----- The ordered set of search terms -----

  /** `set.add(w)` on a JavaScript `Set`, kept as its insertion order. */
  function AddWord(terms: seq<string>, w: string): seq<string> {
    if w in terms then terms else terms + [w]
  }

  /** `ws.forEach(w => set.add(w))`. */
  function AddWords(terms: seq<string>, ws: seq<string>): seq<string> {
    if ws == [] then terms else AddWord(AddWords(terms, ws[..|ws| - 1]), ws[|ws| - 1])
  }

  /** The cluster checks for one query token (App.tsx:437-440): every cluster
      that lists the token is added, cluster by cluster. */
  function ExpandWord(terms: seq<string>, word: string, clusters: Clusters): seq<string> {
    if clusters == [] then terms
    else
      var s := ExpandWord(terms, word, clusters[..|clusters| - 1]);
      if word in clusters[|clusters| - 1] then AddWords(s, clusters[|clusters| - 1]) else s
  }

  /** `inputWords.forEach(...)` over the cluster checks. */
  function ExpandWords(terms: seq<string>, words: seq<string>, clusters: Clusters): seq<string> {
    if words == [] then terms
    else ExpandWord(ExpandWords(terms, words[..|words| - 1], clusters), words[|words| - 1], clusters)
  }

  /** `Array.from(extendedInputWords)`: the query tokens first, then the
      words of every cluster that lists one of them, each term once. */
  function Expansion(words: seq<string>, clusters: Clusters): (r: seq<string>)
    ensures Distinct(r)
    ensures |r| >= |Dedup(words)| && r[..|Dedup(words)|] == Dedup(words)
  {
    AddWordsIsDedup(words);
    DedupDistinct(words);
    ExpandWordsExtends(AddWords([], words), words, clusters);
    ExpandWords(AddWords([], words), words, clusters)
  }

  /** `set.add` for each word, in order (a `forEach` over a list). */
  method AddAll(terms0: seq<string>, ws: seq<string>) returns (terms: seq<string>)
    ensures terms == AddWords(terms0, ws)
  {
    terms := terms0;
    for j := 0 to |ws|
      invariant terms == AddWords(terms0, ws[..j])
    {
      assert ws[..j + 1][..j] == ws[..j];
      if ws[j] !in terms {
        terms := terms + [ws[j]];
      }
    }
    assert ws[..|ws|] == ws;
  }

  /** The four `if (cluster.includes(word))` tests for one token. */
  method ExpandOne(terms0: seq<string>, word: string, clusters: Clusters) returns (terms: seq<string>)
    ensures terms == ExpandWord(terms0, word, clusters)
  {
    terms := terms0;
    for c := 0 to |clusters|
      invariant terms == ExpandWord(terms0, word, clusters[..c])
    {
      assert clusters[..c + 1][..c] == clusters[..c];
      if word in clusters[c] {
        terms := AddAll(terms, clusters[c]);
      }
    }
    assert clusters[..|clusters|] == clusters;
  }

  /** `new Set(inputWords)` followed by the expansion loop (App.tsx:433-441). */
  method ExpandQuery(words: seq<string>, clusters: Clusters) returns (ext: seq<string>)
    ensures ext == Expansion(words, clusters)
  {
    var start := AddAll([], words);
    ext := start;
    for k := 0 to |words|
      invariant ext == ExpandWords(start, words[..k], clusters)
    {
      assert words[..k + 1][..k] == words[..k];
      ext := ExpandOne(ext, words[k], clusters);
    }
    assert words[..|words|] == words;
  }

  lemma {:induction false} AddWordsMembers(terms: seq<string>, ws: seq<string>)
    ensures forall x :: x in AddWords(terms, ws) ==> x in terms || x in ws
    ensures forall x :: x in terms ==> x in AddWords(terms, ws)
    ensures forall x :: x in ws ==> x in AddWords(terms, ws)
  {
    if ws != [] {
      AddWordsMembers(terms, ws[..|ws| - 1]);
      assert ws == ws[..|ws| - 1] + [ws[|ws| - 1]];
    }
  }

  /** Adding to a set never reorders or drops what it already holds. */
  lemma {:induction false} AddWordsExtends(terms: seq<string>, ws: seq<string>)
    ensures |AddWords(terms, ws)| >= |terms| && AddWords(terms, ws)[..|terms|] == terms
  {
    if ws != [] {
      AddWordsExtends(terms, ws[..|ws| - 1]);
    }
  }

  predicate Distinct(s: seq<string>) {
    forall i, j :: 0 <= i < j < |s| ==> s[i] != s[j]
  }

  lemma {:induction false} AddWordsDistinct(terms: seq<string>, ws: seq<string>)
    requires Distinct(terms)
    ensures Distinct(AddWords(terms, ws))
  {
    if ws != [] {
      AddWordsDistinct(terms, ws[..|ws| - 1]);
    }
  }

  /** A `Set` built from a list is the list without repeats, in first
      occurrence order. */
  lemma {:induction false} AddWordsIsDedup(ws: seq<string>)
    ensures AddWords([], ws) == Dedup(ws)
  {
    if ws != [] {
      AddWordsIsDedup(ws[..|ws| - 1]);
    }
  }

  /** Some cluster lists `word` and holds `x`. */
  predicate ClusterLinks(word: string, x: string, clusters: Clusters) {
    exists c :: 0 <= c < |clusters| && word in clusters[c] && x in clusters[c]
  }

  lemma {:induction false} ExpandWordMembers(terms: seq<string>, word: string, clusters: Clusters)
    ensures forall x :: x in ExpandWord(terms, word, clusters) ==> x in terms || ClusterLinks(word, x, clusters)
    ensures forall x :: x in terms || ClusterLinks(word, x, clusters) ==> x in ExpandWord(terms, word, clusters)
  {
    if clusters != [] {
      var init := clusters[..|clusters| - 1];
      var last := clusters[|clusters| - 1];
      ExpandWordMembers(terms, word, init);
      var s := ExpandWord(terms, word, init);
      AddWordsMembers(s, last);
      forall x | ClusterLinks(word, x, init)
        ensures ClusterLinks(word, x, clusters)
      {
        var c :| 0 <= c < |init| && word in init[c] && x in init[c];
        assert clusters[c] == init[c];
      }
      forall x | ClusterLinks(word, x, clusters)
        ensures ClusterLinks(word, x, init) || (word in last && x in last)
      {
        var c :| 0 <= c < |clusters| && word in clusters[c] && x in clusters[c];
        if c < |init| {
          assert init[c] == clusters[c];
        }
      }
    }
  }

  /** Some query token is linked to `x` by a cluster. */
  predicate Linked(words: seq<string>, x: string, clusters: Clusters) {
    exists k :: 0 <= k < |words| && ClusterLinks(words[k], x, clusters)
  }

  lemma {:induction false} ExpandWordsMembers(terms: seq<string>, words: seq<string>, clusters: Clusters)
    ensures forall x :: x in ExpandWords(terms, words, clusters) ==> x in terms || Linked(words, x, clusters)
    ensures forall x :: x in terms || Linked(words, x, clusters) ==> x in ExpandWords(terms, words, clusters)
  {
    if words != [] {
      var init := words[..|words| - 1];
      var last := words[|words| - 1];
      ExpandWordsMembers(terms, init, clusters);
      ExpandWordMembers(ExpandWords(terms, init, clusters), last, clusters);
      forall x | Linked(init, x, clusters)
        ensures Linked(words, x, clusters)
      {
        var k :| 0 <= k < |init| && ClusterLinks(init[k], x, clusters);
        assert words[k] == init[k];
      }
      forall x | Linked(words, x, clusters)
        ensures Linked(init, x, clusters) || ClusterLinks(last, x, clusters)
      {
        var k :| 0 <= k < |words| && ClusterLinks(words[k], x, clusters);
        if k < |init| {
          assert init[k] == words[k];
        }
      }
    }
  }

  lemma {:induction false} ExpandWordsExtends(terms: seq<string>, words: seq<string>, clusters: Clusters)
    requires Distinct(terms)
    ensures Distinct(ExpandWords(terms, words, clusters))
    ensures |ExpandWords(terms, words, clusters)| >= |terms|
    ensures ExpandWords(terms, words, clusters)[..|terms|] == terms
  {
    if words != [] {
      ExpandWordsExtends(terms, words[..|words| - 1], clusters);
      ExpandWordExtends(ExpandWords(terms, words[..|words| - 1], clusters), words[|words| - 1], clusters);
    }
  }

  lemma {:induction false} ExpandWordExtends(terms: seq<string>, word: string, clusters: Clusters)
    requires Distinct(terms)
    ensures Distinct(ExpandWord(terms, word, clusters))
    ensures |ExpandWord(terms, word, clusters)| >= |terms|
    ensures ExpandWord(terms, word, clusters)[..|terms|] == terms
  {
    if clusters != [] {
      var init := clusters[..|clusters| - 1];
      ExpandWordExtends(terms, word, init);
      var s := ExpandWord(terms, word, init);
      AddWordsDistinct(s, clusters[|clusters| - 1]);
      AddWordsExtends(s, clusters[|clusters| - 1]);
    }
  }

  /** The search terms: each once; the distinct query tokens first, in query
      order; then exactly the words of the clusters that list a query token. */
  lemma ExpansionProperties(words: seq<string>, clusters: Clusters)
    ensures Distinct(Expansion(words, clusters))
    ensures |Expansion(words, clusters)| >= |Dedup(words)|
    ensures Expansion(words, clusters)[..|Dedup(words)|] == Dedup(words)
    ensures forall x :: x in Expansion(words, clusters) ==> x in words || Linked(words, x, clusters)
    ensures forall x :: x in words || Linked(words, x, clusters) ==> x in Expansion(words, clusters)
  {
    AddWordsIsDedup(words);
    DedupDistinct(words);
    AddWordsMembers([], words);
    ExpandWordsExtends(AddWords([], words), words, clusters);
    ExpandWordsMembers(AddWords([], words), words, clusters);
  }

  /** There are no terms exactly when there are no query tokens. */
  lemma ExpansionEmpty(words: seq<string>, clusters: Clusters)
    ensures Expansion(words, clusters) == [] <==> words == []
  {
    ExpansionProperties(words, clusters);
    if words != [] {
      assert words[0] in Expansion(words, clusters);
    }
  }

  lemma {:induction false} EmptyClustersAddNothing(terms: seq<string>, word: string, clusters: Clusters)
    requires forall c :: 0 <= c < |clusters| ==> clusters[c] == []
    ensures ExpandWord(terms, word, clusters) == terms
  {
    if clusters != [] {
      EmptyClustersAddNothing(terms, word, clusters[..|clusters| - 1]);
    }
  }

  lemma {:induction false} ShownClustersAddNothing(terms: seq<string>, words: seq<string>)
    ensures ExpandWords(terms, words, ShownClusters) == terms
  {
    if words != [] {
      ShownClustersAddNothing(terms, words[..|words| - 1]);
      EmptyClustersAddNothing(terms, words[|words| - 1], ShownClusters);
    }
  }

  /** With the clusters the source ships, the terms are just the distinct
      query tokens in query order. */
  lemma ShownExpansionIsDedup(words: seq<string>)
    ensures Expansion(words, ShownClusters) == Dedup(words)
  {
    ShownClustersAddNothing(AddWords([], words), words);
    AddWordsIsDedup(words);
  }

  // ----- Row matching -----

  /** The text a row is searched by: `row.description + " " + row.id`. */
  function RowText(row: Lkp): string {
    row.description + " " + row.id
  }

  /** `terms.some(t => rowWords.some(w => matchesWord(t, w)))`. */
  predicate TermsMatch(terms: seq<string>, rowWords: seq<string>) {
    exists i :: 0 <= i < |terms| && MatchesAnyToken(terms[i], rowWords)
  }

  predicate RowMatches(terms: seq<string>, row: Lkp) {
    TermsMatch(terms, Tokenize(RowText(row)))
  }

  /** The outer `some` of App.tsx:454-456. */
  method AnyTermMatches(terms: seq<string>, rowWords: seq<string>) returns (m: bool)
    ensures m == TermsMatch(terms, rowWords)
  {
    for i := 0 to |terms|
      invariant forall i' :: 0 <= i' < i ==> !MatchesAnyToken(terms[i'], rowWords)
    {
      m := AnyTokenMatches(terms[i], rowWords);
      if m {
        return;
      }
    }
    return false;
  }

  /** The rows of a table that match, in table order (App.tsx:449-459). */
  function MatchedRows(terms: seq<string>, rows: seq<Lkp>): (r: seq<Lkp>)
    ensures |r| <= |rows|
  {
    if rows == [] then []
    else
      MatchedRows(terms, rows[..|rows| - 1])
        + (if RowMatches(terms, rows[|rows| - 1]) then [rows[|rows| - 1]] else [])
  }

  lemma {:induction false} MatchedRowsMembers(terms: seq<string>, rows: seq<Lkp>)
    ensures forall row :: row in MatchedRows(terms, rows) ==> row in rows && RowMatches(terms, row)
    ensures forall row :: row in rows && RowMatches(terms, row) ==> row in MatchedRows(terms, rows)
  {
    if rows != [] {
      MatchedRowsMembers(terms, rows[..|rows| - 1]);
      assert rows == rows[..|rows| - 1] + [rows[|rows| - 1]];
    }
  }

  /** A table as the search reports it (the `LKPSearchResult` interface,
      App.tsx:415-420). */
  datatype LkpMatch = LkpMatch(
    tableId: Option<string>,
    tableDescription: Option<string>,
    tableProperties: seq<string>,
    matchedRows: seq<Lkp>)

  /** The entry `tableResults` makes for table `t` at index `i`: its fields,
      its matched rows, and their number as its score. */
  function TableEntry(terms: seq<string>, t: LkpTable, i: nat): Scored<LkpMatch> {
    var matched := MatchedRows(terms, t.rows);
    Scored(LkpMatch(t.tableId, t.tableDescription, t.tableProperties, matched), |matched|, i)
  }

  /** `tableResults`: one entry per table with a matching row, scored by the
      number of matched rows and keeping its table index. */
  function TableResults(terms: seq<string>, tables: seq<LkpTable>): (r: seq<Scored<LkpMatch>>)
    ensures forall k :: 0 <= k < |r| ==> r[k].pos < |tables|
  {
    if tables == [] then []
    else
      var t := tables[|tables| - 1];
      var matched := MatchedRows(terms, t.rows);
      TableResults(terms, tables[..|tables| - 1])
        + (if matched != [] then [TableEntry(terms, t, |tables| - 1)] else [])
  }

  /** The reported tables, best first: sorted stably by matched-row count
      and cut to `topN`; nothing when there are no terms. */
  function LookupRanking(tables: seq<LkpTable>, text: string, clusters: Clusters, topN: nat): seq<Scored<LkpMatch>> {
    var terms := Expansion(Tokenize(text), clusters);
    if terms == [] then [] else Take(SortRanked(TableResults(terms, tables)), topN)
  }

  /** What `searchLKPDescriptions(tables, text, topN)` returns. */
  function LookupSearch(tables: seq<LkpTable>, text: string, clusters: Clusters, topN: nat): (r: seq<LkpMatch>)
    ensures |r| <= topN
    ensures forall k :: 0 <= k < |r| ==> r[k].matchedRows != []
    ensures forall k :: 0 <= k < |r| ==>
      exists i :: 0 <= i < |tables| && r[k].matchedRows == MatchedRows(Expansion(Tokenize(text), clusters), tables[i].rows)
  {
    LookupRankingSound(tables, text, clusters, topN);
    Items(LookupRanking(tables, text, clusters, topN))
  }

  lemma LookupRankingSound(tables: seq<LkpTable>, text: string, clusters: Clusters, topN: nat)
    ensures |LookupRanking(tables, text, clusters, topN)| <= topN
    ensures forall k :: 0 <= k < |LookupRanking(tables, text, clusters, topN)| ==>
      var s := LookupRanking(tables, text, clusters, topN)[k];
      s.pos < |tables| && s.item.matchedRows == MatchedRows(Expansion(Tokenize(text), clusters), tables[s.pos].rows) != []
  {
    var terms := Expansion(Tokenize(text), clusters);
    if terms != [] {
      RankedTables(terms, tables, topN, LookupRanking(tables, text, clusters, topN));
    }
  }

  /** The search with its loops: term expansion, the row loop pushing
      `matchedRows`, the table loop pushing `tableResults`. */
  method SearchLookupTables(tables: seq<LkpTable>, text: string, clusters: Clusters, topN: nat) returns (r: seq<LkpMatch>)
    ensures r == LookupSearch(tables, text, clusters, topN)
  {
    var terms := ExpandQuery(Tokenize(text), clusters);
    if |terms| == 0 {
      return [];
    }
    var results: seq<Scored<LkpMatch>> := [];
    for t := 0 to |tables|
      invariant results == TableResults(terms, tables[..t])
    {
      var matched := MatchRows(terms, tables[t].rows);
      assert tables[..t + 1][..t] == tables[..t];
      if |matched| > 0 {
        results := results + [Scored(LkpMatch(tables[t].tableId, tables[t].tableDescription, tables[t].tableProperties, matched), |matched|, t)];
      }
    }
    assert tables[..|tables|] == tables;
    r := Items(Take(SortRanked(results), topN));
  }

  /** The row loop of App.tsx:451-459, pushing each matching row. */
  method MatchRows(terms: seq<string>, rows: seq<Lkp>) returns (matched: seq<Lkp>)
    ensures matched == MatchedRows(terms, rows)
  {
    matched := [];
    for j := 0 to |rows|
      invariant matched == MatchedRows(terms, rows[..j])
    {
      assert rows[..j + 1][..j] == rows[..j];
      var isMatch := AnyTermMatches(terms, Tokenize(RowText(rows[j])));
      if isMatch {
        matched := matched + [rows[j]];
      }
    }
    assert rows[..|rows|] == rows;
  }

  /** Table results carry their table's fields and its matched rows, have a
      positive score equal to the number of those rows, and come in table
      order; every table with a matching row has one. */
  lemma TableResultsProperties(terms: seq<string>, tables: seq<LkpTable>)
    ensures InInputOrder(TableResults(terms, tables))
    ensures forall k :: 0 <= k < |TableResults(terms, tables)| ==>
      var s := TableResults(terms, tables)[k];
      var t := tables[s.pos];
      s.item == LkpMatch(t.tableId, t.tableDescription, t.tableProperties, MatchedRows(terms, t.rows))
      && s.item.matchedRows != [] && s.score == |s.item.matchedRows| > 0
    ensures forall i :: 0 <= i < |tables| && MatchedRows(terms, tables[i].rows) != [] ==>
      exists k :: 0 <= k < |TableResults(terms, tables)| && TableResults(terms, tables)[k].pos == i
  {
    TableResultsOrder(terms, tables);
    TableResultsEntries(terms, tables);
    TableResultsCover(terms, tables);
    assert forall i :: 0 <= i < |tables| && MatchedRows(terms, tables[i].rows) != [] ==>
      exists k :: 0 <= k < |TableResults(terms, tables)| && TableResults(terms, tables)[k].pos == i;
  }

  lemma {:induction false} TableResultsOrder(terms: seq<string>, tables: seq<LkpTable>)
    ensures InInputOrder(TableResults(terms, tables))
  {
    if tables != [] {
      var init := tables[..|tables| - 1];
      TableResultsOrder(terms, init);
      var prev := TableResults(terms, init);
      var r := TableResults(terms, tables);
      assert r[..|prev|] == prev;
      forall i, j | 0 <= i < j < |r| ensures r[i].pos < r[j].pos {
        assert r[i] == prev[i];
        if j < |prev| {
          assert r[j] == prev[j];
        }
      }
    }
  }

  lemma {:induction false} TableResultsEntries(terms: seq<string>, tables: seq<LkpTable>)
    ensures forall k :: 0 <= k < |TableResults(terms, tables)| ==>
      var s := TableResults(terms, tables)[k];
      var t := tables[s.pos];
      s.item == LkpMatch(t.tableId, t.tableDescription, t.tableProperties, MatchedRows(terms, t.rows))
      && s.item.matchedRows != [] && s.score == |s.item.matchedRows| > 0
  {
    if tables != [] {
      var init := tables[..|tables| - 1];
      TableResultsEntries(terms, init);
      var prev := TableResults(terms, init);
      var r := TableResults(terms, tables);
      forall k | 0 <= k < |r|
        ensures var t := tables[r[k].pos];
          r[k].item == LkpMatch(t.tableId, t.tableDescription, t.tableProperties, MatchedRows(terms, t.rows))
          && r[k].item.matchedRows != [] && r[k].score == |r[k].item.matchedRows| > 0
      {
        if k < |prev| {
          assert r[k] == prev[k];
          assert tables[prev[k].pos] == init[prev[k].pos];
        }
      }
    }
  }

  lemma {:induction false} TableResultsCover(terms: seq<string>, tables: seq<LkpTable>)
    ensures forall i :: 0 <= i < |tables| && MatchedRows(terms, tables[i].rows) != [] ==>
      exists k :: 0 <= k < |TableResults(terms, tables)| && TableResults(terms, tables)[k].pos == i
  {
    if tables != [] {
      var init := tables[..|tables| - 1];
      TableResultsCover(terms, init);
      var prev := TableResults(terms, init);
      var r := TableResults(terms, tables);
      assert r[..|prev|] == prev;
      forall i | 0 <= i < |tables| && MatchedRows(terms, tables[i].rows) != []
        ensures exists k :: 0 <= k < |r| && r[k].pos == i
      {
        if i < |init| {
          assert init[i] == tables[i];
          var k :| 0 <= k < |prev| && prev[k].pos == i;
          assert r[k] == prev[k];
        } else {
          assert r[|prev|].pos == i;
        }
      }
      assert forall i :: 0 <= i < |tables| && MatchedRows(terms, tables[i].rows) != [] ==>
        exists k :: 0 <= k < |TableResults(terms, tables)| && TableResults(terms, tables)[k].pos == i;
    }
  }

  /** Every table with a matching row contributes its own entry. */
  lemma {:induction false} TableResultsHasEntry(terms: seq<string>, tables: seq<LkpTable>)
    ensures forall i :: 0 <= i < |tables| && MatchedRows(terms, tables[i].rows) != [] ==>
      TableEntry(terms, tables[i], i) in TableResults(terms, tables)
  {
    if tables != [] {
      var init := tables[..|tables| - 1];
      TableResultsHasEntry(terms, init);
      var prev := TableResults(terms, init);
      var r := TableResults(terms, tables);
      assert r[..|prev|] == prev;
      forall i | 0 <= i < |tables| && MatchedRows(terms, tables[i].rows) != []
        ensures TableEntry(terms, tables[i], i) in r
      {
        if i < |init| {
          assert init[i] == tables[i];
          assert TableEntry(terms, tables[i], i) in prev;
        } else {
          assert r[|prev|] == TableEntry(terms, tables[i], i);
        }
      }
    }
  }

  lemma {:induction false} PositiveKeepsAll<T>(s: seq<Scored<T>>)
    requires forall k :: 0 <= k < |s| ==> s[k].score > 0
    ensures Positive(s) == s
  {
    if s != [] {
      PositiveKeepsAll(s[1..]);
      assert s == [s[0]] + s[1..];
    }
  }

  /** At most `topN` tables come back, each with at least one matched row,
      those rows being exactly its matching rows in table order; counts never
      increase along the result and equal counts keep table order; a table
      with a matching row is left out only when `topN` tables that outrank it
      fill the result. */
  lemma LookupSearchProperties(tables: seq<LkpTable>, text: string, clusters: Clusters, topN: nat)
    ensures |LookupSearch(tables, text, clusters, topN)| == |LookupRanking(tables, text, clusters, topN)| <= topN
    ensures Ranked(LookupRanking(tables, text, clusters, topN))
    ensures forall k :: 0 <= k < |LookupRanking(tables, text, clusters, topN)| ==>
      var s := LookupRanking(tables, text, clusters, topN)[k];
      var terms := Expansion(Tokenize(text), clusters);
      s.pos < |tables| && s.item.matchedRows == MatchedRows(terms, tables[s.pos].rows) != []
      && s.score == |s.item.matchedRows|
    ensures forall i :: (0 <= i < |tables| && MatchedRows(Expansion(Tokenize(text), clusters), tables[i].rows) != []
      && Tokenize(text) != []) ==>
      var r := LookupRanking(tables, text, clusters, topN);
      (exists k :: 0 <= k < |r| && r[k].pos == i)
      || (|r| == topN && forall k :: 0 <= k < |r| ==>
            Precedes(r[k], TableEntry(Expansion(Tokenize(text), clusters), tables[i], i)))
  {
    var terms := Expansion(Tokenize(text), clusters);
    ExpansionEmpty(Tokenize(text), clusters);
    var r := LookupRanking(tables, text, clusters, topN);
    if terms != [] {
      RankedTables(terms, tables, topN, r);
    }
  }

  /** The properties of the ranked tables for a non-empty list of terms. */
  lemma RankedTables(terms: seq<string>, tables: seq<LkpTable>, topN: nat, r: seq<Scored<LkpMatch>>)
    requires r == Take(SortRanked(TableResults(terms, tables)), topN)
    ensures |r| <= topN && Ranked(r)
    ensures forall k :: 0 <= k < |r| ==>
      r[k].pos < |tables| && r[k].item.matchedRows == MatchedRows(terms, tables[r[k].pos].rows) != []
      && r[k].score == |r[k].item.matchedRows|
    ensures forall i :: 0 <= i < |tables| && MatchedRows(terms, tables[i].rows) != [] ==>
      (exists k :: 0 <= k < |r| && r[k].pos == i)
      || (|r| == topN && forall k :: 0 <= k < |r| ==> Precedes(r[k], TableEntry(terms, tables[i], i)))
  {
    var s := TableResults(terms, tables);
    TableResultsOrder(terms, tables);
    TableResultsEntries(terms, tables);
    PositiveKeepsAll(s);
    RankProperties(s, topN);
    assert r == Rank(s, topN);
    RankedEntries(terms, tables, s, r);
    RankedTablesCover(terms, tables, topN, s, r);
  }

  /** A matching table the ranking leaves out is outranked by every table kept. */
  lemma RankedTablesCover(terms: seq<string>, tables: seq<LkpTable>, topN: nat, s: seq<Scored<LkpMatch>>, r: seq<Scored<LkpMatch>>)
    requires s == TableResults(terms, tables) && InInputOrder(s) && r == Rank(s, topN)
    ensures forall i :: 0 <= i < |tables| && MatchedRows(terms, tables[i].rows) != [] ==>
      (exists k :: 0 <= k < |r| && r[k].pos == i)
      || (|r| == topN && forall k :: 0 <= k < |r| ==> Precedes(r[k], TableEntry(terms, tables[i], i)))
  {
    RankProperties(s, topN);
    TableResultsHasEntry(terms, tables);
    RankedCover(terms, tables, topN, s, r);
  }

  lemma RankedEntries(terms: seq<string>, tables: seq<LkpTable>, s: seq<Scored<LkpMatch>>, r: seq<Scored<LkpMatch>>)
    requires s == TableResults(terms, tables)
    requires forall k :: 0 <= k < |s| ==>
      var t := tables[s[k].pos];
      s[k].item == LkpMatch(t.tableId, t.tableDescription, t.tableProperties, MatchedRows(terms, t.rows))
      && s[k].item.matchedRows != [] && s[k].score == |s[k].item.matchedRows| > 0
    requires forall k :: 0 <= k < |r| ==> r[k] in s
    ensures forall k :: 0 <= k < |r| ==>
      r[k].pos < |tables| && r[k].item.matchedRows == MatchedRows(terms, tables[r[k].pos].rows) != []
      && r[k].score == |r[k].item.matchedRows|
  {
    forall k | 0 <= k < |r|
      ensures r[k].pos < |tables| && r[k].item.matchedRows == MatchedRows(terms, tables[r[k].pos].rows) != []
        && r[k].score == |r[k].item.matchedRows|
    {
      assert r[k] in s;
      var j :| 0 <= j < |s| && s[j] == r[k];
    }
  }

  lemma RankedCover(terms: seq<string>, tables: seq<LkpTable>, topN: nat, s: seq<Scored<LkpMatch>>, r: seq<Scored<LkpMatch>>)
    requires forall i :: 0 <= i < |tables| && MatchedRows(terms, tables[i].rows) != [] ==>
      TableEntry(terms, tables[i], i) in s
    requires forall x :: x in s && x.score > 0 && x !in r ==>
      |r| == topN && forall k :: 0 <= k < |r| ==> Precedes(r[k], x)
    ensures forall i :: 0 <= i < |tables| && MatchedRows(terms, tables[i].rows) != [] ==>
      (exists k :: 0 <= k < |r| && r[k].pos == i)
      || (|r| == topN && forall k :: 0 <= k < |r| ==> Precedes(r[k], TableEntry(terms, tables[i], i)))
  {
    forall i | 0 <= i < |tables| && MatchedRows(terms, tables[i].rows) != []
      ensures (exists k :: 0 <= k < |r| && r[k].pos == i)
        || (|r| == topN && forall k :: 0 <= k < |r| ==> Precedes(r[k], TableEntry(terms, tables[i], i)))
    {
      var x := TableEntry(terms, tables[i], i);
      assert x in s && x.score > 0;
      if x in r {
        var k :| 0 <= k < |r| && r[k] == x;
      }
    }
  }

  /** A query without tokens finds no table, whatever the clusters. */
  lemma NoTokenNoTables(tables: seq<LkpTable>, text: string, clusters: Clusters, topN: nat)
    requires Tokenize(text) == []
    ensures LookupSearch(tables, text, clusters, topN) == []
  {
    ExpansionEmpty(Tokenize(text), clusters);
  }

  /** A row that shares a token with the query matches. */
  lemma SharedTokenMatches(text: string, clusters: Clusters, row: Lkp, w: string)
    requires w in Tokenize(text) && w in Tokenize(RowText(row))
    ensures RowMatches(Expansion(Tokenize(text), clusters), row)
  {
    var terms := Expansion(Tokenize(text), clusters);
    ExpansionProperties(Tokenize(text), clusters);
    var i :| 0 <= i < |terms| && terms[i] == w;
    var rowWords := Tokenize(RowText(row));
    var j :| 0 <= j < |rowWords| && rowWords[j] == w;
    WordsMatchReflexive(w);
    assert MatchesAnyToken(terms[i], rowWords);
  }
}
