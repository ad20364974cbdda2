/** `searchVQDDescriptions` (App.tsx:481-545): the variable-dictionary search.
    The raw query is enriched with fixed synonym lists, every enriched string
    is tokenized, and each record scores one point per query token that
    matches some token of its description. */
module VqdSearch {
  import opened Text
  import opened Matcher
  import opened Ranking
  import opened Dictionary

  /** The synonym lists of App.tsx:487-489. */
  const BorrowerKeywords: seq<string> := ["Borrower", "Borrowers", "Borrowed", "BRW"]
  const InstitutionKeywords: seq<string> := ["Kapiti", "BRWHI", "Institution", "Home"]
  const LocationKeywords: seq<string> :=
    ["Paraparaumu", "PARA", "Location", "Waikanae", "WAI", "Paekakariki", "PAE", "Otaki", "OTA"]

  /** `keywords.some(word => text.toLowerCase().includes(word.toLowerCase()))`. */
  predicate MentionsAny(text: string, keywords: seq<string>) {
    exists k :: 0 <= k < |keywords| && Contains(Lower(text), Lower(keywords[k]))
  }

  /** `enrichInputText` (App.tsx:492-506): the raw query, then the borrower
      list on a borrower hit, the institution list on an institution hit, and
      the institution list again on a location hit (the location list itself
      is never added), de-duplicated in first-occurrence order. */
  function EnrichInput(text: string): (r: seq<string>)
    ensures r != [] && r[0] == text
    ensures forall i, j :: 0 <= i < j < |r| ==> r[i] != r[j]
  {
    var pushed := [text]
      + (if MentionsAny(text, BorrowerKeywords) then BorrowerKeywords else [])
      + (if MentionsAny(text, InstitutionKeywords) then InstitutionKeywords else [])
      + (if MentionsAny(text, LocationKeywords) then InstitutionKeywords else []);
    DedupFirst(pushed);
    DedupDistinct(pushed);
    Dedup(pushed)
  }

  /** `.flatMap(word => tokenize(word))`. */
  function FlatTokens(xs: seq<string>): (r: seq<string>)
    ensures forall k :: 0 <= k < |r| ==> IsToken(r[k])
  {
    if xs == [] then [] else Tokenize(xs[0]) + FlatTokens(xs[1..])
  }

  /** The query tokens a record is scored against (App.tsx:512). */
  function QueryWords(text: string): seq<string> {
    FlatTokens(EnrichInput(text))
  }

  /** How many of `words`, counted with repetition, pass `hit`. */
  function CountHits(words: seq<string>, hit: string -> bool): (r: nat)
    ensures r <= |words|
  {
    if words == [] then 0
    else CountHits(words[..|words| - 1], hit) + (if hit(words[|words| - 1]) then 1 else 0)
  }

  /** The test a query token passes when it matches some description token. */
  function HitsIn(descWords: seq<string>): string -> bool {
    w => MatchesAnyToken(w, descWords)
  }

  /** How many of `words`, counted with repetition, match some description
      token: the score of App.tsx:516-526. */
  function MatchCount(words: seq<string>, descWords: seq<string>): (r: nat)
    ensures r <= |words|
  {
    CountHits(words, HitsIn(descWords))
  }

  function VariableScore(v: Vqd, words: seq<string>): nat {
    MatchCount(words, Tokenize(v.description))
  }

  /** `index.map(vqd => ({ vqd, score }))`, each record keeping its index. */
  function ScoreVariables(index: seq<Vqd>, words: seq<string>): (r: seq<Scored<Vqd>>)
    ensures |r| == |index|
    ensures forall i :: 0 <= i < |r| ==> r[i] == Scored(index[i], VariableScore(index[i], words), i)
  {
    seq(|index|, i requires 0 <= i < |index| => Scored(index[i], VariableScore(index[i], words), i))
  }

  /** The scored records the search returns, best first. */
  function VariableRanking(index: seq<Vqd>, text: string, topN: nat): seq<Scored<Vqd>> {
    var words := QueryWords(text);
    if words == [] then [] else Rank(ScoreVariables(index, words), topN)
  }

  /** What `searchVQDDescriptions(index, text, topN)` returns. */
  function VariableSearch(index: seq<Vqd>, text: string, topN: nat): (r: seq<Vqd>)
    ensures |r| <= topN
    ensures forall k :: 0 <= k < |r| ==> r[k] in index && VariableScore(r[k], QueryWords(text)) > 0
  {
    VariableRankingSound(index, text, topN);
    Items(VariableRanking(index, text, topN))
  }

  lemma VariableRankingSound(index: seq<Vqd>, text: string, topN: nat)
    ensures |VariableRanking(index, text, topN)| <= topN
    ensures forall k :: 0 <= k < |VariableRanking(index, text, topN)| ==>
      var s := VariableRanking(index, text, topN)[k];
      s.item in index && VariableScore(s.item, QueryWords(text)) > 0
  {
    var words := QueryWords(text);
    if words != [] {
      var s := ScoreVariables(index, words);
      RankProperties(s, topN);
      var r := Rank(s, topN);
      forall k | 0 <= k < |r|
        ensures r[k].item in index && VariableScore(r[k].item, words) > 0
      {
        assert r[k] in s;
        var j :| 0 <= j < |s| && s[j] == r[k];
      }
    }
  }

  /** The search: the `index.map` of App.tsx:517-528, one call of the
      callback per record. */
  method SearchVariables(index: seq<Vqd>, text: string, topN: nat) returns (r: seq<Vqd>)
    ensures r == VariableSearch(index, text, topN)
  {
    var words := FlatTokens(EnrichInput(text));
    if |words| == 0 {
      return [];
    }
    var scored: seq<Scored<Vqd>> := [];
    for i := 0 to |index|
      invariant |scored| == i
      invariant forall j :: 0 <= j < i ==> scored[j] == Scored(index[j], VariableScore(index[j], words), j)
    {
      var score := ScoreVariable(index[i], words);
      scored := scored + [Scored(index[i], score, i)];
    }
    assert scored == ScoreVariables(index, words);
    r := Items(Rank(scored, topN));
  }

  /** The `map` callback of App.tsx:518-527: one point per query token that
      matches some description token. */
  method ScoreVariable(vqd: Vqd, words: seq<string>) returns (score: nat)
    ensures score == VariableScore(vqd, words)
  {
    var descWords := Tokenize(vqd.description);
    score := 0;
    for k := 0 to |words|
      invariant score == MatchCount(words[..k], descWords)
    {
      var m := AnyTokenMatches(words[k], descWords);
      assert words[..k + 1][..k] == words[..k];
      if m {
        score := score + 1;
      }
    }
    assert words[..|words|] == words;
  }

  /** A record scores when, and only when, one of the query tokens matches one
      of its description tokens. */
  lemma MatchCountPositive(words: seq<string>, descWords: seq<string>)
    ensures MatchCount(words, descWords) > 0 <==> exists k :: 0 <= k < |words| && MatchesAnyToken(words[k], descWords)
  {
    var hit := HitsIn(descWords);
    if MatchCount(words, descWords) > 0 {
      CountHitsHasHit(words, hit);
      var k :| 0 <= k < |words| && hit(words[k]);
      assert MatchesAnyToken(words[k], descWords);
    }
    if exists k :: 0 <= k < |words| && MatchesAnyToken(words[k], descWords) {
      var k :| 0 <= k < |words| && MatchesAnyToken(words[k], descWords);
      assert hit(words[k]);
      CountHitsFromHit(words, hit, k);
    }
  }

  lemma {:induction false} CountHitsHasHit(words: seq<string>, hit: string -> bool)
    requires CountHits(words, hit) > 0
    ensures exists k :: 0 <= k < |words| && hit(words[k])
  {
    var n := |words| - 1;
    var init := words[..n];
    if !hit(words[n]) {
      CountHitsHasHit(init, hit);
      var k :| 0 <= k < |init| && hit(init[k]);
      assert words[k] == init[k];
    }
  }

  lemma {:induction false} CountHitsFromHit(words: seq<string>, hit: string -> bool, k: nat)
    requires k < |words| && hit(words[k])
    ensures CountHits(words, hit) > 0
  {
    var n := |words| - 1;
    if k < n {
      var init := words[..n];
      assert init[k] == words[k];
      CountHitsFromHit(init, hit, k);
    }
  }

  /** Scores add up over the query tokens, so a token that appears twice in
      the query counts twice. */
  lemma MatchCountAppend(a: seq<string>, b: seq<string>, descWords: seq<string>)
    ensures MatchCount(a + b, descWords) == MatchCount(a, descWords) + MatchCount(b, descWords)
  {
    CountHitsAppend(a, b, HitsIn(descWords));
  }

  lemma {:induction false} CountHitsAppend(a: seq<string>, b: seq<string>, hit: string -> bool)
    ensures CountHits(a + b, hit) == CountHits(a, hit) + CountHits(b, hit)
    decreases |b|
  {
    if b != [] {
      var init := b[..|b| - 1];
      assert (a + b)[..|a + b| - 1] == a + init;
      CountHitsAppend(a, init, hit);
    } else {
      assert a + b == a;
    }
  }

  /** Every record returned is a record of the index with a positive score;
      at most `topN` come back; scores never increase along the result and
      equal scores keep index order; and a scoring record is left out only
      when `topN` records that outrank it fill the result. */
  lemma VariableSearchProperties(index: seq<Vqd>, text: string, topN: nat)
    ensures |VariableSearch(index, text, topN)| == |VariableRanking(index, text, topN)| <= topN
    ensures Ranked(VariableRanking(index, text, topN))
    ensures forall k :: 0 <= k < |VariableRanking(index, text, topN)| ==>
      var s := VariableRanking(index, text, topN)[k];
      s.pos < |index| && s.item == index[s.pos] && s.score == VariableScore(s.item, QueryWords(text)) > 0
    ensures forall i :: 0 <= i < |index| && VariableScore(index[i], QueryWords(text)) > 0 && QueryWords(text) != [] ==>
      var r := VariableRanking(index, text, topN);
      (exists k :: 0 <= k < |r| && r[k].pos == i)
      || (|r| == topN && forall k :: 0 <= k < |r| ==> Precedes(r[k], Scored(index[i], VariableScore(index[i], QueryWords(text)), i)))
  {
    var words := QueryWords(text);
    if words != [] {
      var s := ScoreVariables(index, words);
      RankProperties(s, topN);
      var r := Rank(s, topN);
      forall k | 0 <= k < |r|
        ensures r[k].pos < |index| && r[k].item == index[r[k].pos]
      {
        assert r[k] in s;
      }
      forall i | 0 <= i < |index| && VariableScore(index[i], words) > 0
        ensures (exists k :: 0 <= k < |r| && r[k].pos == i)
          || (|r| == topN && forall k :: 0 <= k < |r| ==> Precedes(r[k], s[i]))
      {
        assert s[i] in s;
        RankKeepsOrOutranks(s, topN, s[i]);
        if s[i] in r {
          var k :| 0 <= k < |r| && r[k] == s[i];
        }
      }
    }
  }

  /** A keyword list whose every entry begins with a letter or a digit. */
  predicate BeginsWithWordChar(keywords: seq<string>) {
    forall k :: 0 <= k < |keywords| ==> keywords[k] != [] && IsTokenChar(LowerChar(keywords[k][0]))
  }

  /** A text without letters or digits mentions no such keyword. */
  lemma NoWordCharMentionsNothing(text: string, keywords: seq<string>)
    requires forall i :: 0 <= i < |text| ==> !IsTokenChar(LowerChar(text[i]))
    requires BeginsWithWordChar(keywords)
    ensures !MentionsAny(text, keywords)
  {
    forall k, j | 0 <= k < |keywords| && 0 <= j <= |Lower(text)|
      ensures !OccursAt(Lower(text), Lower(keywords[k]), j)
    {
      if j < |text| && j + |keywords[k]| <= |text| {
        assert Lower(text)[j..j + |keywords[k]|][0] == LowerChar(text[j]);
        assert Lower(keywords[k])[0] == LowerChar(keywords[k][0]);
      }
    }
  }

  /** The search finds nothing exactly when the raw query has no token:
      enrichment only fires on a keyword, and every keyword contains a
      letter. */
  lemma QueryWordsEmpty(text: string)
    ensures QueryWords(text) == [] <==> Tokenize(text) == []
  {
    var e := EnrichInput(text);
    assert FlatTokens(e) == Tokenize(text) + FlatTokens(e[1..]);
    if Tokenize(text) == [] {
      TokenizeNothing(text);
      KeywordsBeginWithWordChar();
      NoWordCharMentionsNothing(text, BorrowerKeywords);
      NoWordCharMentionsNothing(text, InstitutionKeywords);
      NoWordCharMentionsNothing(text, LocationKeywords);
      assert [text] + [] + [] + [] == [text];
      assert Dedup([text]) == [text];
      assert e[1..] == [];
    }
  }

  lemma KeywordsBeginWithWordChar()
    ensures BeginsWithWordChar(BorrowerKeywords)
    ensures BeginsWithWordChar(InstitutionKeywords)
    ensures BeginsWithWordChar(LocationKeywords)
  {
  }

  /** Hence a query without letters or digits returns no record. */
  lemma NoTokenNoResult(index: seq<Vqd>, text: string, topN: nat)
    requires Tokenize(text) == []
    ensures VariableSearch(index, text, topN) == []
  {
    QueryWordsEmpty(text);
  }

  /** The enriched strings are the query itself, the borrower list after a
      borrower hit, and the institution list after an institution hit or a
      location hit. */
  lemma EnrichInputMembers(text: string)
    ensures forall w :: w in EnrichInput(text) <==>
      w == text
      || (MentionsAny(text, BorrowerKeywords) && w in BorrowerKeywords)
      || ((MentionsAny(text, InstitutionKeywords) || MentionsAny(text, LocationKeywords)) && w in InstitutionKeywords)
  {
    var pushed := [text]
      + (if MentionsAny(text, BorrowerKeywords) then BorrowerKeywords else [])
      + (if MentionsAny(text, InstitutionKeywords) then InstitutionKeywords else [])
      + (if MentionsAny(text, LocationKeywords) then InstitutionKeywords else []);
    DedupMembers(pushed);
  }

  /** The location list is tested but never added: a location keyword reaches
      the enriched strings only as the raw query itself, and a location hit
      adds the institution list instead (App.tsx:502-503). */
  lemma LocationHitAddsInstitutions(text: string)
    ensures forall w :: w in EnrichInput(text) && w in LocationKeywords ==> w == text
    ensures MentionsAny(text, LocationKeywords) ==> forall w :: w in InstitutionKeywords ==> w in EnrichInput(text)
  {
    EnrichInputMembers(text);
    KeywordListsDisjoint();
  }

  /** No location keyword is on the borrower or the institution list. */
  lemma KeywordListsDisjoint()
    ensures forall w :: w in LocationKeywords ==> w !in BorrowerKeywords && w !in InstitutionKeywords
  {
  }
}
