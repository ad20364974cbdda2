/** `getRelevantContext` (App.tsx:227-352): the string handed to the language
    model with each question. It is the fixed preamble, then (for a technical
    question) the best variable and lookup matches, then the full text of the
    best-scoring knowledge-base files, at most `limit` of them. */
module Context {
  import opened Wrappers
  import opened Text
  import opened Json
  import opened Dictionary
  import opened Ranking
  import opened VqdSearch
  import opened LkpSearch

  /** A knowledge-base document (types.ts:26-30). */
  datatype SopFile = SopFile(name: string, path: string, content: string)

  /** The cap both structured searches are called with (App.tsx:248, 267). */
  const SearchCap: nat := 100

  const VariableHeader: string := "\n\n--- VQD MATCHES (Top 200 Relevant Variables) ---\n"
  const LookupHeader: string := "\n\n--- LKP MATCHES (Lookup Tables & Values) ---\n"

  // ----- The query -----

  /** A query term: longer than four characters, all of `\w`. */
  predicate IsTerm(t: string) {
    |t| > 4 && AllChars(t, IsRegexWordChar)
  }

  predicate AllTerms(terms: seq<string>) {
    forall k :: 0 <= k < |terms| ==> IsTerm(terms[k])
  }

  /** `.filter(t => t.length > 4)`. */
  function LongPieces(ps: seq<string>): (r: seq<string>)
    ensures |r| <= |ps|
    ensures forall k :: 0 <= k < |r| ==> |r[k]| > 4 && r[k] in ps
  {
    if ps == [] then []
    else (if |ps[0]| > 4 then [ps[0]] else []) + LongPieces(ps[1..])
  }

  /** `queryLower.split(/\W+/).filter(t => t.length > 4)` (App.tsx:238). */
  function QueryTerms(query: string): (r: seq<string>)
    ensures AllTerms(r)
  {
    var ps := Pieces(Lower(query), IsRegexWordChar);
    PiecesAreWords(Lower(query), IsRegexWordChar);
    LongPieces(ps)
  }

  lemma {:induction false} LongPiecesMembers(ps: seq<string>)
    ensures forall x :: x in LongPieces(ps) ==> x in ps && |x| > 4
    ensures forall x :: x in ps && |x| > 4 ==> x in LongPieces(ps)
  {
    if ps != [] {
      LongPiecesMembers(ps[1..]);
      assert ps == [ps[0]] + ps[1..];
    }
  }

  /** The filter keeps the order of the pieces: it distributes over
      concatenation. */
  lemma {:induction false} LongPiecesAppend(x: seq<string>, y: seq<string>)
    ensures LongPieces(x + y) == LongPieces(x) + LongPieces(y)
  {
    if x == [] {
      assert x + y == y;
    } else {
      assert (x + y)[1..] == x[1..] + y;
      LongPiecesAppend(x[1..], y);
    }
  }

  /** A query that is one run of `\w` characters gives its lowercase form as
      its only term when it is longer than four characters, and no term
      otherwise. */
  lemma QueryTermsOfWord(w: string)
    requires AllChars(w, IsRegexWordChar)
    ensures QueryTerms(w) == if |w| > 4 then [Lower(w)] else []
  {
    var lw := Lower(w);
    assert AllChars(lw, IsRegexWordChar);
    PiecesOfWord(lw, IsRegexWordChar);
    assert [lw][1..] == [];
  }

  /** A character outside `\w` separates terms: the terms of the query are
      those of the part before it followed by those of the part after it.
      With `QueryTermsOfWord` this fixes the terms of every query, in query
      order. */
  lemma QueryTermsAcrossDelimiter(a: string, d: char, b: string)
    requires !IsRegexWordChar(LowerChar(d))
    ensures QueryTerms(a + [d] + b) == QueryTerms(a) + QueryTerms(b)
  {
    assert Lower(a + [d] + b) == Lower(a) + [LowerChar(d)] + Lower(b);
    PiecesAcrossDelimiter(Lower(a), LowerChar(d), Lower(b), IsRegexWordChar);
    LongPiecesAppend(Pieces(Lower(a), IsRegexWordChar), Pieces(Lower(b), IsRegexWordChar));
  }

  /** `isRequestingBoolean` (App.tsx:239-242). */
  predicate IsTechnical(query: string) {
    var q := Lower(query);
    Contains(q, "boolean") || Contains(q, "query") || Contains(q, "code")
  }

  /** The test ignores letter case, and needs at least the four letters of
      its shortest keyword, "code". */
  lemma IsTechnicalIgnoresCase(query: string)
    ensures IsTechnical(Upper(query)) == IsTechnical(query)
    ensures IsTechnical(Lower(query)) == IsTechnical(query)
    ensures IsTechnical(query) ==> |query| >= 4
  {
    assert Lower(Upper(query)) == Lower(query);
    assert Lower(Lower(query)) == Lower(query);
    var q := Lower(query);
    if Contains(q, "boolean") {
      ContainsLength(q, "boolean");
    } else if Contains(q, "query") {
      ContainsLength(q, "query");
    } else if Contains(q, "code") {
      ContainsLength(q, "code");
    }
  }

  // ----- Whole-word occurrences: `content.match(new RegExp("\\b" + term + "\\b", "gi"))` -----

  /** `term` occurs at `p` with a word boundary on both sides. Every term is
      made of `\w` characters, so the boundary before it is the start of the
      text or a non-`\w` character, and likewise after it. */
  predicate WholeWordAt(c: string, t: string, p: nat) {
    OccursAt(c, t, p)
    && (p == 0 || !IsRegexWordChar(c[p - 1]))
    && (p + |t| == |c| || !IsRegexWordChar(c[p + |t|]))
  }

  /** The number of matches a global regular-expression search returns: it
      scans left to right and resumes after each match. */
  function WholeWordMatches(c: string, t: string, p: nat): (r: nat)
    requires |t| > 0
    ensures p <= |c| ==> r * |t| <= |c| - p
    decreases |c| - p
  {
    if p + |t| > |c| then 0
    else if WholeWordAt(c, t, p) then 1 + WholeWordMatches(c, t, p + |t|)
    else WholeWordMatches(c, t, p + 1)
  }

  /** The number of positions from `p` on where `t` occurs as a whole word. */
  function WholeWordCount(c: string, t: string, p: nat): nat
    decreases |c| - p
  {
    if p + |t| > |c| then 0
    else (if WholeWordAt(c, t, p) then 1 else 0) + WholeWordCount(c, t, p + 1)
  }

  /** Two whole-word occurrences of a `\w` term cannot overlap: inside one,
      the character before any later start is a word character. */
  lemma NoOverlap(c: string, t: string, p: nat, q: nat)
    requires AllChars(t, IsRegexWordChar)
    requires WholeWordAt(c, t, p) && p < q < p + |t|
    ensures !WholeWordAt(c, t, q)
  {
    assert c[q - 1] == c[p..p + |t|][q - 1 - p] == t[q - 1 - p];
  }

  lemma {:induction false} CountSkipsInside(c: string, t: string, p: nat, q: nat)
    requires AllChars(t, IsRegexWordChar)
    requires WholeWordAt(c, t, p) && p < q <= p + |t|
    ensures WholeWordCount(c, t, q) == WholeWordCount(c, t, p + |t|)
    decreases p + |t| - q
  {
    if q < p + |t| {
      NoOverlap(c, t, p, q);
      CountSkipsInside(c, t, p, q + 1);
    }
  }

  /** So the left-to-right scan finds every whole-word occurrence: the match
      count is the number of positions where the term stands as a word. */
  lemma {:induction false} ScanCountsAll(c: string, t: string, p: nat)
    requires |t| > 0 && AllChars(t, IsRegexWordChar)
    ensures WholeWordMatches(c, t, p) == WholeWordCount(c, t, p)
    decreases |c| - p
  {
    if p + |t| <= |c| {
      if WholeWordAt(c, t, p) {
        ScanCountsAll(c, t, p + |t|);
        CountSkipsInside(c, t, p, p + 1);
      } else {
        ScanCountsAll(c, t, p + 1);
      }
    }
  }

  /** A whole-word occurrence is an occurrence. */
  lemma {:induction false} MatchesImplyContains(c: string, t: string, p: nat)
    requires |t| > 0
    requires WholeWordMatches(c, t, p) > 0
    ensures Contains(c, t)
    decreases |c| - p
  {
    if !WholeWordAt(c, t, p) {
      MatchesImplyContains(c, t, p + 1);
    }
  }

  // ----- File scores (App.tsx:295-331) -----

  /** Markers in a file name that signal structured content. */
  predicate HasDataMarker(name: string) {
    Contains(name, "boolean") || Contains(name, "lkp") || Contains(name, "json")
    || Contains(name, "vqd") || Contains(name, "queries")
  }

  /** The name and path boosts of a technical question (App.tsx:303-317):
      +300 for a data marker in the name, +280 more for "lkp", +50 for
      "boolean" or "database" in the path. */
  function NameBoost(f: SopFile, technical: bool): (r: nat)
    ensures !technical ==> r == 0
    ensures r <= 630
    ensures technical ==> (r >= 300 <==> HasDataMarker(Lower(f.name)))
    ensures technical && Contains(Lower(f.name), "lkp") ==> r >= 580
  {
    var name := Lower(f.name);
    var path := Lower(f.path);
    if !technical then 0
    else
      (if HasDataMarker(name) then 300 else 0)
      + (if Contains(name, "lkp") then 280 else 0)
      + (if Contains(path, "boolean") || Contains(path, "database") then 50 else 0)
  }

  /** The points one query term earns (App.tsx:319-328): 40 for the name,
      15 for the path, 10 per whole-word match in the content, 2 for any
      occurrence in the content. */
  function TermScore(f: SopFile, term: string): (r: nat)
    requires IsTerm(term)
    ensures r > 0 <==> Contains(Lower(f.name), term) || Contains(Lower(f.path), term) || Contains(Lower(f.content), term)
    ensures WholeWordMatches(Lower(f.content), term, 0) > 0 ==> r >= 10 * WholeWordMatches(Lower(f.content), term, 0) + 2
  {
    var content := Lower(f.content);
    assert WholeWordMatches(content, term, 0) > 0 ==> Contains(content, term) by {
      if WholeWordMatches(content, term, 0) > 0 {
        MatchesImplyContains(content, term, 0);
      }
    }
    (if Contains(Lower(f.name), term) then 40 else 0)
    + (if Contains(Lower(f.path), term) then 15 else 0)
    + 10 * WholeWordMatches(content, term, 0)
    + (if Contains(content, term) then 2 else 0)
  }

  function TermsScore(f: SopFile, terms: seq<string>): nat
    requires AllTerms(terms)
  {
    if terms == [] then 0 else TermsScore(f, terms[..|terms| - 1]) + TermScore(f, terms[|terms| - 1])
  }

  function FileScore(f: SopFile, terms: seq<string>, technical: bool): nat
    requires AllTerms(terms)
  {
    NameBoost(f, technical) + TermsScore(f, terms)
  }

  /** The per-file `score +=` computation (App.tsx:297-331). */
  method ScoreFile(f: SopFile, terms: seq<string>, technical: bool) returns (score: int)
    requires AllTerms(terms)
    ensures score == FileScore(f, terms, technical)
  {
    score := 0;
    var contentLower := Lower(f.content);
    var nameLower := Lower(f.name);
    var pathLower := Lower(f.path);
    if technical {
      if HasDataMarker(nameLower) {
        score := score + 300;
      }
      if Contains(nameLower, "lkp") {
        score := score + 280;
      }
      if Contains(pathLower, "boolean") || Contains(pathLower, "database") {
        score := score + 50;
      }
    }
    for k := 0 to |terms|
      invariant score == NameBoost(f, technical) + TermsScore(f, terms[..k])
    {
      var term := terms[k];
      assert terms[..k + 1][..k] == terms[..k];
      if Contains(nameLower, term) {
        score := score + 40;
      }
      if Contains(pathLower, term) {
        score := score + 15;
      }
      var matches := WholeWordMatches(contentLower, term, 0);
      if matches > 0 {
        score := score + matches * 10;
      }
      if Contains(contentLower, term) {
        score := score + 2;
      }
    }
    assert terms[..|terms|] == terms;
  }

  /** Some term appears in the name, the path or the content. */
  predicate TermHit(f: SopFile, terms: seq<string>) {
    exists k :: 0 <= k < |terms|
      && (Contains(Lower(f.name), terms[k]) || Contains(Lower(f.path), terms[k]) || Contains(Lower(f.content), terms[k]))
  }

  lemma {:induction false} TermsScorePositive(f: SopFile, terms: seq<string>)
    requires AllTerms(terms)
    ensures TermsScore(f, terms) > 0 <==> TermHit(f, terms)
  {
    if terms != [] {
      var init := terms[..|terms| - 1];
      var last := terms[|terms| - 1];
      TermsScorePositive(f, init);
      if WholeWordMatches(Lower(f.content), last, 0) > 0 {
        MatchesImplyContains(Lower(f.content), last, 0);
      }
      if TermHit(f, init) {
        var k :| 0 <= k < |init|
          && (Contains(Lower(f.name), init[k]) || Contains(Lower(f.path), init[k]) || Contains(Lower(f.content), init[k]));
        assert terms[k] == init[k];
      }
      if TermHit(f, terms) {
        var k :| 0 <= k < |terms|
          && (Contains(Lower(f.name), terms[k]) || Contains(Lower(f.path), terms[k]) || Contains(Lower(f.content), terms[k]));
        if k < |init| {
          assert init[k] == terms[k];
        }
      }
    }
  }

  /** Which files can be selected at all: a file scores above zero exactly
      when, for a technical question, its name carries a data marker or its
      path mentions "boolean" or "database", or when some query term occurs
      in its name, path or content. */
  lemma FileScorePositive(f: SopFile, terms: seq<string>, technical: bool)
    requires AllTerms(terms)
    ensures FileScore(f, terms, technical) > 0 <==>
      (technical && (HasDataMarker(Lower(f.name)) || Contains(Lower(f.path), "boolean") || Contains(Lower(f.path), "database")))
      || TermHit(f, terms)
  {
    TermsScorePositive(f, terms);
  }

  /** Under a technical question a file named like a lookup dump gets 580
      points before any term is counted. */
  lemma LookupFileBoost(f: SopFile, terms: seq<string>)
    requires AllTerms(terms)
    requires Contains(Lower(f.name), "lkp")
    ensures FileScore(f, terms, true) >= 580 + TermsScore(f, terms)
  {
  }

  /** `files.map((file, i) => ({ file, score }))`, each keeping its index. */
  function ScoreFiles(files: seq<SopFile>, terms: seq<string>, technical: bool): (r: seq<Scored<SopFile>>)
    requires AllTerms(terms)
    ensures |r| == |files|
    ensures forall i :: 0 <= i < |r| ==> r[i] == Scored(files[i], FileScore(files[i], terms, technical), i)
  {
    seq(|files|, i requires 0 <= i < |files| => Scored(files[i], FileScore(files[i], terms, technical), i))
  }

  /** The default of `limit` (App.tsx:232); the one call site, App.tsx:705,
      passes no limit, so at most three files are injected. */
  const DefaultLimit: int := 3

  /** How many files `filesIncluded >= limit` lets through. */
  function LimitCount(limit: int): nat {
    if limit <= 0 then 0 else limit
  }

  /** The files appended, in order: positive scores only, sorted stably by
      score descending, at most `limit` of them. */
  function SelectedFiles(query: string, files: seq<SopFile>, limit: int): seq<Scored<SopFile>> {
    Rank(ScoreFiles(files, QueryTerms(query), IsTechnical(query)), LimitCount(limit))
  }

  /** At most `limit` files; each a file of the input with a positive score;
      scores never increase along the selection and ties keep input order;
      and a positive-scoring file is left out only when `limit` files that
      outrank it were taken. At the call site `limit` is `DefaultLimit`. */
  lemma SelectedFilesProperties(query: string, files: seq<SopFile>, limit: int)
    ensures |SelectedFiles(query, files, limit)| <= LimitCount(limit)
    ensures Ranked(SelectedFiles(query, files, limit))
    ensures forall k :: 0 <= k < |SelectedFiles(query, files, limit)| ==>
      var s := SelectedFiles(query, files, limit)[k];
      s.pos < |files| && s.item == files[s.pos]
      && s.score == FileScore(s.item, QueryTerms(query), IsTechnical(query)) > 0
    ensures forall i :: 0 <= i < |files| && FileScore(files[i], QueryTerms(query), IsTechnical(query)) > 0 ==>
      var r := SelectedFiles(query, files, limit);
      (exists k :: 0 <= k < |r| && r[k].pos == i)
      || (|r| == LimitCount(limit) && forall k :: 0 <= k < |r| ==>
            Precedes(r[k], Scored(files[i], FileScore(files[i], QueryTerms(query), IsTechnical(query)), i)))
  {
    var s := ScoreFiles(files, QueryTerms(query), IsTechnical(query));
    RankProperties(s, LimitCount(limit));
    var r := SelectedFiles(query, files, limit);
    forall k | 0 <= k < |r|
      ensures r[k].pos < |files| && r[k].item == files[r[k].pos]
    {
      assert r[k] in s;
    }
    SelectedFilesCover(files, LimitCount(limit), s, r);
  }

  /** A positive-scoring file the selection leaves out is outranked by every
      file taken. */
  lemma SelectedFilesCover(files: seq<SopFile>, n: nat, s: seq<Scored<SopFile>>, r: seq<Scored<SopFile>>)
    requires InInputOrder(s) && r == Rank(s, n)
    requires |s| == |files| && forall i :: 0 <= i < |s| ==> s[i].pos == i
    ensures forall i :: 0 <= i < |files| && s[i].score > 0 ==>
      (exists k :: 0 <= k < |r| && r[k].pos == i)
      || (|r| == n && forall k :: 0 <= k < |r| ==> Precedes(r[k], s[i]))
  {
    forall i | 0 <= i < |files| && s[i].score > 0
      ensures (exists k :: 0 <= k < |r| && r[k].pos == i)
        || (|r| == n && forall k :: 0 <= k < |r| ==> Precedes(r[k], s[i]))
    {
      assert s[i] in s;
      RankKeepsOrOutranks(s, n, s[i]);
      if s[i] in r {
        var k :| 0 <= k < |r| && r[k] == s[i];
      }
    }
  }

  // ----- Rendering (App.tsx:251-287, 344-345) -----

  /** A number in a template literal. */
  function NumberText(n: Number): string {
    match n
    case Finite(v) => IntToString(v)
    case NaN => "NaN"
  }

  /** `${x ?? "None"}`. */
  function OrNone(o: Option<string>): string {
    match o
    case Some(s) => s
    case None => "None"
  }

  /** `${x}` for a field that may be missing. */
  function OrUndefined(o: Option<string>): string {
    match o
    case Some(s) => s
    case None => "undefined"
  }

  /** A template literal: its text chunks and substituted values, in order. */
  function Template(pieces: seq<string>): string {
    Concat(pieces)
  }

  /** The record template of App.tsx:254-259. */
  function VariablePieces(v: Vqd): seq<string> {
    ["ID: ", NumberText(v.id), "\nVariable: ", v.variableName, "\nType: ", v.typeTag,
     "\nFormat: ", OrNone(v.format), "\nRecord: ", OrNone(v.recordType), "\nDescription: ", v.description]
  }

  function RenderVariable(v: Vqd): string {
    Template(VariablePieces(v))
  }

  /** The row template of App.tsx:280-283. */
  function RowPieces(row: Lkp): seq<string> {
    ["  - ID: ", row.id, "\n    Description: ", row.description, "\n    Properties: ", OrNone(row.properties)]
  }

  function RenderRow(row: Lkp): string {
    Template(RowPieces(row))
  }

  function RenderRows(rows: seq<Lkp>): seq<string> {
    seq(|rows|, k requires 0 <= k < |rows| => RenderRow(rows[k]))
  }

  /** The table template of App.tsx:273-285. */
  function TablePieces(m: LkpMatch): seq<string> {
    ["Table ID: ", OrUndefined(m.tableId), "\nTable Description: ", OrUndefined(m.tableDescription),
     "\nProperties: ", Join(m.tableProperties, ", "), "\nRows:\n", Join(RenderRows(m.matchedRows), "\n")]
  }

  function RenderTable(m: LkpMatch): string {
    Template(TablePieces(m))
  }

  function RenderVariables(vs: seq<Vqd>): string {
    Join(seq(|vs|, k requires 0 <= k < |vs| => RenderVariable(vs[k])), "\n\n")
  }

  function RenderTables(ms: seq<LkpMatch>): string {
    Join(seq(|ms|, k requires 0 <= k < |ms| => RenderTable(ms[k])), "\n\n")
  }

  /** Every field of a variable record is written out: the id, the name, the
      type, the format and record type (or "None"), and the description. */
  lemma RenderVariableShows(v: Vqd)
    ensures Contains(RenderVariable(v), "ID: ")
    ensures Contains(RenderVariable(v), NumberText(v.id))
    ensures Contains(RenderVariable(v), v.variableName)
    ensures Contains(RenderVariable(v), v.typeTag)
    ensures Contains(RenderVariable(v), OrNone(v.format))
    ensures Contains(RenderVariable(v), OrNone(v.recordType))
    ensures Contains(RenderVariable(v), v.description)
  {
    var ps := VariablePieces(v);
    ConcatHasParts(ps);
    assert ps[0] == "ID: " && ps[1] == NumberText(v.id) && ps[3] == v.variableName && ps[5] == v.typeTag;
    assert ps[7] == OrNone(v.format) && ps[9] == OrNone(v.recordType) && ps[11] == v.description;
  }

  /** Every field of a row is written out: the id, the description, and the
      properties (or "None"). */
  lemma RenderRowShows(row: Lkp)
    ensures Contains(RenderRow(row), row.id)
    ensures Contains(RenderRow(row), row.description)
    ensures Contains(RenderRow(row), OrNone(row.properties))
  {
    var ps := RowPieces(row);
    ConcatHasParts(ps);
    assert ps[1] == row.id && ps[3] == row.description && ps[5] == OrNone(row.properties);
  }

  /** A table is written with its id and description (or "undefined"), each
      of its properties, and each of its matched rows. */
  lemma RenderTableShows(m: LkpMatch)
    ensures Contains(RenderTable(m), OrUndefined(m.tableId))
    ensures Contains(RenderTable(m), OrUndefined(m.tableDescription))
    ensures forall k :: 0 <= k < |m.tableProperties| ==> Contains(RenderTable(m), m.tableProperties[k])
    ensures forall k :: 0 <= k < |m.matchedRows| ==> Contains(RenderTable(m), RenderRow(m.matchedRows[k]))
  {
    var ps := TablePieces(m);
    var r := RenderTable(m);
    ConcatHasParts(ps);
    assert ps[1] == OrUndefined(m.tableId) && ps[3] == OrUndefined(m.tableDescription);
    var props := Join(m.tableProperties, ", ");
    var rows := Join(RenderRows(m.matchedRows), "\n");
    assert ps[5] == props && ps[7] == rows;
    JoinHasParts(m.tableProperties, ", ");
    JoinHasParts(RenderRows(m.matchedRows), "\n");
    forall k | 0 <= k < |m.tableProperties|
      ensures Contains(r, m.tableProperties[k])
    {
      ContainsTrans(r, props, m.tableProperties[k]);
    }
    forall k | 0 <= k < |m.matchedRows|
      ensures Contains(r, RenderRow(m.matchedRows[k]))
    {
      assert RenderRows(m.matchedRows)[k] == RenderRow(m.matchedRows[k]);
      ContainsTrans(r, rows, RenderRow(m.matchedRows[k]));
    }
  }

  /** The variable list writes out every record, and is empty only when
      there is none. */
  lemma RenderVariablesShows(vs: seq<Vqd>)
    ensures forall k :: 0 <= k < |vs| ==> Contains(RenderVariables(vs), RenderVariable(vs[k]))
    ensures RenderVariables(vs) == "" <==> vs == []
  {
    var parts := seq(|vs|, k requires 0 <= k < |vs| => RenderVariable(vs[k]));
    JoinHasParts(parts, "\n\n");
    forall k | 0 <= k < |vs|
      ensures parts[k] != ""
    {
      RenderVariableShows(vs[k]);
      ContainsLength(RenderVariable(vs[k]), "ID: ");
    }
    JoinEmpty(parts, "\n\n");
    assert RenderVariables(vs) == Join(parts, "\n\n");
    forall k | 0 <= k < |vs|
      ensures Contains(RenderVariables(vs), RenderVariable(vs[k]))
    {
      assert parts[k] == RenderVariable(vs[k]);
    }
  }

  /** The table list writes out every table, and is empty only when there is
      none. */
  lemma RenderTablesShows(ms: seq<LkpMatch>)
    ensures forall k :: 0 <= k < |ms| ==> Contains(RenderTables(ms), RenderTable(ms[k]))
    ensures RenderTables(ms) == "" <==> ms == []
  {
    var parts := seq(|ms|, k requires 0 <= k < |ms| => RenderTable(ms[k]));
    JoinHasParts(parts, "\n\n");
    forall k | 0 <= k < |ms|
      ensures parts[k] != ""
    {
      var ps := TablePieces(ms[k]);
      ConcatHasParts(ps);
      assert ps[0] == "Table ID: ";
      ContainsLength(RenderTable(ms[k]), "Table ID: ");
    }
    JoinEmpty(parts, "\n\n");
    assert RenderTables(ms) == Join(parts, "\n\n");
    forall k | 0 <= k < |ms|
      ensures Contains(RenderTables(ms), RenderTable(ms[k]))
    {
      assert parts[k] == RenderTable(ms[k]);
    }
  }

  /** The VQD block (App.tsx:247-264): present only for a technical question
      with a non-empty variable index and at least one match. */
  function VariableBlock(query: string, vqdIndex: seq<Vqd>): string {
    if IsTechnical(query) && |vqdIndex| > 0 then
      var m := VariableSearch(vqdIndex, query, SearchCap);
      if |m| > 0 then VariableHeader + RenderVariables(m) else ""
    else ""
  }

  /** The LKP block (App.tsx:266-291), under the same conditions. */
  function LookupBlock(query: string, lkpTables: seq<LkpTable>, clusters: Clusters): string {
    if IsTechnical(query) && |lkpTables| > 0 then
      var m := LookupSearch(lkpTables, query, clusters, SearchCap);
      if |m| > 0 then LookupHeader + RenderTables(m) else ""
    else ""
  }

  /** `fileHeader + contentToInject` (App.tsx:344-345): a header naming the
      path, then the whole content, never cut short. */
  function FileBlock(f: SopFile): (r: string)
    ensures EndsWith(r, f.content)
  {
    "\n\n--- SOURCE_FILE: " + f.path + " ---\n" + f.content
  }

  function FileSection(selected: seq<Scored<SopFile>>): string {
    if selected == [] then ""
    else FileSection(selected[..|selected| - 1]) + FileBlock(selected[|selected| - 1].item)
  }

  /** The VQD block is there exactly for a technical question with a
      non-empty index and some match; it then carries its header and every
      record the search returned. */
  lemma VariableBlockShows(query: string, vqdIndex: seq<Vqd>)
    ensures VariableBlock(query, vqdIndex) != "" <==>
      IsTechnical(query) && |vqdIndex| > 0 && VariableSearch(vqdIndex, query, SearchCap) != []
    ensures VariableBlock(query, vqdIndex) != "" ==>
      Contains(VariableBlock(query, vqdIndex), VariableHeader)
      && forall k :: 0 <= k < |VariableSearch(vqdIndex, query, SearchCap)| ==>
           Contains(VariableBlock(query, vqdIndex), RenderVariable(VariableSearch(vqdIndex, query, SearchCap)[k]))
  {
    var m := VariableSearch(vqdIndex, query, SearchCap);
    if IsTechnical(query) && |vqdIndex| > 0 && m != [] {
      var body := RenderVariables(m);
      RenderVariablesShows(m);
      ContainsItself(VariableHeader);
      ContainsLeft(VariableHeader, body, VariableHeader);
      forall k | 0 <= k < |m|
        ensures Contains(VariableHeader + body, RenderVariable(m[k]))
      {
        ContainsRight(VariableHeader, body, RenderVariable(m[k]));
      }
    }
  }

  /** Likewise for the LKP block and the tables the lookup search returned. */
  lemma LookupBlockShows(query: string, lkpTables: seq<LkpTable>, clusters: Clusters)
    ensures LookupBlock(query, lkpTables, clusters) != "" <==>
      IsTechnical(query) && |lkpTables| > 0 && LookupSearch(lkpTables, query, clusters, SearchCap) != []
    ensures LookupBlock(query, lkpTables, clusters) != "" ==>
      Contains(LookupBlock(query, lkpTables, clusters), LookupHeader)
      && forall k :: 0 <= k < |LookupSearch(lkpTables, query, clusters, SearchCap)| ==>
           Contains(LookupBlock(query, lkpTables, clusters), RenderTable(LookupSearch(lkpTables, query, clusters, SearchCap)[k]))
  {
    var m := LookupSearch(lkpTables, query, clusters, SearchCap);
    if IsTechnical(query) && |lkpTables| > 0 && m != [] {
      var body := RenderTables(m);
      RenderTablesShows(m);
      ContainsItself(LookupHeader);
      ContainsLeft(LookupHeader, body, LookupHeader);
      forall k | 0 <= k < |m|
        ensures Contains(LookupHeader + body, RenderTable(m[k]))
      {
        ContainsRight(LookupHeader, body, RenderTable(m[k]));
      }
    }
  }

  /** What `getRelevantContext` returns. `preamble` stands for
      `SYSTEM_INSTRUCTION + BOOLEAN_MANDATE`. */
  function RelevantContext(query: string, files: seq<SopFile>, vqdIndex: seq<Vqd>, lkpTables: seq<LkpTable>,
                           clusters: Clusters, preamble: string, limit: int): string {
    if query == "" then ""
    else if |files| == 0 && |vqdIndex| == 0 then ""
    else preamble + Sections(query, files, vqdIndex, lkpTables, clusters, limit)
  }

  /** Everything after the preamble: the VQD block, the LKP block, the files. */
  function Sections(query: string, files: seq<SopFile>, vqdIndex: seq<Vqd>, lkpTables: seq<LkpTable>,
                    clusters: Clusters, limit: int): string {
    VariableBlock(query, vqdIndex)
    + LookupBlock(query, lkpTables, clusters)
    + (if |files| > 0 then FileSection(SelectedFiles(query, files, limit)) else "")
  }

  /** The file loop of App.tsx:337-348: append each sorted file until
      `limit` have been included. */
  method AppendFiles(ctx0: string, sorted: seq<Scored<SopFile>>, limit: int) returns (ctx: string)
    ensures ctx == ctx0 + FileSection(Take(sorted, LimitCount(limit)))
  {
    ctx := ctx0;
    var filesIncluded := 0;
    var i := 0;
    while i < |sorted|
      invariant 0 <= i <= |sorted| && filesIncluded == i && i <= LimitCount(limit)
      invariant ctx == ctx0 + FileSection(sorted[..i])
    {
      if filesIncluded >= limit {
        break;
      }
      assert sorted[..i + 1][..i] == sorted[..i];
      ctx := ctx + FileBlock(sorted[i].item);
      filesIncluded := filesIncluded + 1;
      i := i + 1;
    }
    assert sorted[..i] == Take(sorted, LimitCount(limit));
  }

  /** The VQD block as the accumulator receives it (App.tsx:247-264). */
  method AppendVariables(ctx0: string, query: string, vqdIndex: seq<Vqd>) returns (ctx: string)
    ensures ctx == ctx0 + VariableBlock(query, vqdIndex)
  {
    ctx := ctx0;
    if IsTechnical(query) && |vqdIndex| > 0 {
      var vqdMatches := SearchVariables(vqdIndex, query, SearchCap);
      if |vqdMatches| > 0 {
        ctx := ctx + (VariableHeader + RenderVariables(vqdMatches));
      }
    }
  }

  /** The LKP block as the accumulator receives it (App.tsx:266-291). */
  method AppendTables(ctx0: string, query: string, lkpTables: seq<LkpTable>, clusters: Clusters) returns (ctx: string)
    ensures ctx == ctx0 + LookupBlock(query, lkpTables, clusters)
  {
    ctx := ctx0;
    if IsTechnical(query) && |lkpTables| > 0 {
      var lkpMatches := SearchLookupTables(lkpTables, query, clusters, SearchCap);
      if |lkpMatches| > 0 {
        ctx := ctx + (LookupHeader + RenderTables(lkpMatches));
      }
    }
  }

  /** `files.map(...)` with the per-file score (App.tsx:297-331). */
  method ScoreAllFiles(files: seq<SopFile>, terms: seq<string>, technical: bool) returns (scored: seq<Scored<SopFile>>)
    requires AllTerms(terms)
    ensures scored == ScoreFiles(files, terms, technical)
  {
    scored := [];
    for i := 0 to |files|
      invariant |scored| == i
      invariant forall j :: 0 <= j < i ==> scored[j] == Scored(files[j], FileScore(files[j], terms, technical), j)
    {
      var score := ScoreFile(files[i], terms, technical);
      scored := scored + [Scored(files[i], score, i)];
    }
  }

  lemma ConcatAssociates(a: string, b: string, c: string, d: string)
    ensures ((a + b) + c) + d == a + ((b + c) + d)
  {
  }

  /** `getRelevantContext` with its `combinedContext +=` accumulator. */
  method GetRelevantContext(query: string, files: seq<SopFile>, vqdIndex: seq<Vqd>, lkpTables: seq<LkpTable>,
                            clusters: Clusters, preamble: string, limit: int) returns (ctx: string)
    ensures ctx == RelevantContext(query, files, vqdIndex, lkpTables, clusters, preamble, limit)
  {
    if |query| == 0 {
      return "";
    }
    if |files| == 0 && |vqdIndex| == 0 {
      return "";
    }
    var terms := QueryTerms(query);
    var technical := IsTechnical(query);
    ctx := preamble;
    ctx := AppendVariables(ctx, query, vqdIndex);
    ghost var withVariables := ctx;
    ctx := AppendTables(ctx, query, lkpTables, clusters);
    ghost var withTables := ctx;
    if |files| > 0 {
      var scored := ScoreAllFiles(files, terms, technical);
      ctx := AppendFiles(ctx, SortRanked(Positive(scored)), limit);
    }
    ghost var fileSection := if |files| > 0 then FileSection(SelectedFiles(query, files, limit)) else "";
    assert ctx == withTables + fileSection;
    ConcatAssociates(preamble, VariableBlock(query, vqdIndex), LookupBlock(query, lkpTables, clusters), fileSection);
    assert ctx == preamble + Sections(query, files, vqdIndex, lkpTables, clusters, limit);
  }

  /** Nothing for an empty question, or when there are neither files nor
      variables (lookup tables alone do not count); otherwise the preamble
      comes first. */
  lemma ContextGuards(query: string, files: seq<SopFile>, vqdIndex: seq<Vqd>, lkpTables: seq<LkpTable>,
                      clusters: Clusters, preamble: string, limit: int)
    ensures query == "" ==> RelevantContext(query, files, vqdIndex, lkpTables, clusters, preamble, limit) == ""
    ensures |files| == 0 && |vqdIndex| == 0 ==> RelevantContext(query, files, vqdIndex, lkpTables, clusters, preamble, limit) == ""
    ensures query != "" && (|files| > 0 || |vqdIndex| > 0) ==>
      var r := RelevantContext(query, files, vqdIndex, lkpTables, clusters, preamble, limit);
      |r| >= |preamble| && r[..|preamble|] == preamble
  {
    if query != "" && (|files| > 0 || |vqdIndex| > 0) {
      var rest := Sections(query, files, vqdIndex, lkpTables, clusters, limit);
      assert (preamble + rest)[..|preamble|] == preamble;
    }
  }

  /** A question that is not technical gets the preamble and the selected
      files only. */
  lemma NonTechnicalContext(query: string, files: seq<SopFile>, vqdIndex: seq<Vqd>, lkpTables: seq<LkpTable>,
                            clusters: Clusters, preamble: string, limit: int)
    requires query != "" && (|files| > 0 || |vqdIndex| > 0) && !IsTechnical(query)
    ensures RelevantContext(query, files, vqdIndex, lkpTables, clusters, preamble, limit)
      == preamble + FileSection(SelectedFiles(query, files, limit))
  {
    assert VariableBlock(query, vqdIndex) == "";
    assert LookupBlock(query, lkpTables, clusters) == "";
    var fs := FileSection(SelectedFiles(query, files, limit));
    if |files| == 0 {
      assert ScoreFiles(files, QueryTerms(query), IsTechnical(query)) == [];
      assert Positive<SopFile>([]) == [];
      assert SelectedFiles(query, files, limit) == [];
    }
    assert "" + "" + fs == fs;
    assert Sections(query, files, vqdIndex, lkpTables, clusters, limit) == fs;
  }

  /** A question without letters or digits gets no variable or lookup block. */
  lemma NoTokenNoBlocks(query: string, vqdIndex: seq<Vqd>, lkpTables: seq<LkpTable>, clusters: Clusters)
    requires Tokenize(query) == []
    ensures VariableBlock(query, vqdIndex) == ""
    ensures LookupBlock(query, lkpTables, clusters) == ""
  {
    NoTokenNoResult(vqdIndex, query, SearchCap);
    NoTokenNoTables(lkpTables, query, clusters, SearchCap);
  }

  /** Every selected file is injected into the context with its whole
      content. */
  lemma ContextHasSelectedFiles(query: string, files: seq<SopFile>, vqdIndex: seq<Vqd>, lkpTables: seq<LkpTable>,
                                clusters: Clusters, preamble: string, limit: int)
    requires query != "" && |files| > 0
    ensures forall k :: 0 <= k < |SelectedFiles(query, files, limit)| ==>
      Contains(RelevantContext(query, files, vqdIndex, lkpTables, clusters, preamble, limit),
               FileBlock(SelectedFiles(query, files, limit)[k].item))
  {
    var sel := SelectedFiles(query, files, limit);
    var blocks := seq(|sel|, k requires 0 <= k < |sel| => FileBlock(sel[k].item));
    FileSectionBlocks(sel);
    ConcatHasParts(blocks);
    var front := VariableBlock(query, vqdIndex) + LookupBlock(query, lkpTables, clusters);
    assert Sections(query, files, vqdIndex, lkpTables, clusters, limit) == front + FileSection(sel);
    forall k | 0 <= k < |sel|
      ensures Contains(preamble + (front + FileSection(sel)), FileBlock(sel[k].item))
    {
      assert blocks[k] == FileBlock(sel[k].item);
      ContainsRight(front, FileSection(sel), blocks[k]);
      ContainsRight(preamble, front + FileSection(sel), blocks[k]);
    }
  }

  /** The file section holds exactly the selected files, in order. */
  lemma {:induction false} FileSectionBlocks(selected: seq<Scored<SopFile>>)
    ensures FileSection(selected) == Concat(seq(|selected|, k requires 0 <= k < |selected| => FileBlock(selected[k].item)))
  {
    if selected != [] {
      var init := selected[..|selected| - 1];
      FileSectionBlocks(init);
      var blocks := seq(|selected|, k requires 0 <= k < |selected| => FileBlock(selected[k].item));
      assert blocks[..|blocks| - 1] == seq(|init|, k requires 0 <= k < |init| => FileBlock(init[k].item));
    }
  }
}
