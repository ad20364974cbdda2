/** The morphological word matcher (App.tsx:355-406): plural variants, the
    one-rule suffix stripper `baseForm`, and the asymmetric containment test
    `matchesWord` that both structured searches use. */
module Matcher {
  import opened Text

  /** `normalizePlural` (App.tsx:355-360): the word itself and, when it ends
      in a lowercase "s", the word without that "s". */
  function PluralForms(word: string): (r: seq<string>)
    ensures 1 <= |r| <= 2 && r[0] == word
    ensures |r| == 2 <==> EndsWith(word, "s")
    ensures |r| == 2 ==> r[1] + "s" == word
  {
    if EndsWith(word, "s") then [word, word[..|word| - 1]] else [word]
  }

  /** `baseForm` (App.tsx:367-389): the lowercased word with at most one
      suffix rule applied, the first that fires of "ies" to "y" (no length
      guard), a final "s" dropped (length over 3), a final "ed" dropped
      (length over 3), a final "ing" dropped (length over 4). */
  function BaseForm(word: string): (r: string)
    ensures |word| - 3 <= |r| <= |word|
    ensures r == Lower(word) || |r| < |word|
    ensures forall i :: 0 <= i < |r| ==> !('A' <= r[i] <= 'Z')
  {
    var w := Lower(word);
    if EndsWith(w, "ies") then w[..|w| - 3] + "y"
    else if EndsWith(w, "s") && |w| > 3 then w[..|w| - 1]
    else if EndsWith(w, "ed") && |w| > 3 then w[..|w| - 2]
    else if EndsWith(w, "ing") && |w| > 4 then w[..|w| - 3]
    else w
  }

  /** `normalizePlural(word).map(baseForm)`. */
  function BaseForms(word: string): (r: seq<string>)
    ensures 1 <= |r| <= 2 && r[0] == BaseForm(word)
    ensures forall k :: 0 <= k < |r| ==> |word| - 4 <= |r[k]| <= |word|
  {
    var forms := PluralForms(word);
    if |forms| == 2 then [BaseForm(forms[0]), BaseForm(forms[1])] else [BaseForm(forms[0])]
  }

  /** The second form compared exists exactly for a word ending in "s", and
      is the base form of the word without that "s". */
  lemma BaseFormsOfPlural(word: string)
    ensures |BaseForms(word)| == 2 <==> EndsWith(word, "s")
    ensures |BaseForms(word)| == 2 ==> BaseForms(word)[1] == BaseForm(word[..|word| - 1])
  {
  }

  /** One pair of forms matches when the input form is no longer than the
      description form and occurs in it. */
  predicate FormMatches(inputForm: string, descForm: string) {
    |inputForm| <= |descForm| && Contains(descForm, inputForm)
  }

  /** What `matchesWord(input, desc)` decides: some base form of the input is
      no longer than, and a substring of, some base form of the description
      word. */
  predicate WordsMatch(input: string, desc: string) {
    var inputForms := BaseForms(input);
    var descForms := BaseForms(desc);
    exists a, b :: 0 <= a < |inputForms| && 0 <= b < |descForms| && FormMatches(inputForms[a], descForms[b])
  }

  /** `matchesWord` (App.tsx:362-406): two nested loops over the forms that
      return on the first matching pair. */
  method MatchesWord(input: string, desc: string) returns (m: bool)
    ensures m == WordsMatch(input, desc)
  {
    var inputForms := BaseForms(input);
    var descForms := BaseForms(desc);
    for a := 0 to |inputForms|
      invariant forall a', b' :: 0 <= a' < a && 0 <= b' < |descForms| ==> !FormMatches(inputForms[a'], descForms[b'])
    {
      for b := 0 to |descForms|
        invariant forall b' :: 0 <= b' < b ==> !FormMatches(inputForms[a], descForms[b'])
      {
        if |inputForms[a]| > |descForms[b]| {
          continue;
        }
        if Contains(descForms[b], inputForms[a]) {
          return true;
        }
      }
    }
    return false;
  }

  /** Every word matches itself. */
  lemma WordsMatchReflexive(w: string)
    ensures WordsMatch(w, w)
  {
    var forms := BaseForms(w);
    ContainsItself(forms[0]);
    assert FormMatches(forms[0], forms[0]);
  }

  /** A match bounds the input's length by the description word's: each base
      form loses at most four characters (a plural "s" and then "ing"), and
      the input form may not be longer than the description form. */
  lemma WordsMatchLength(input: string, desc: string)
    requires WordsMatch(input, desc)
    ensures |input| <= |desc| + 4
  {
    var inputForms := BaseForms(input);
    var descForms := BaseForms(desc);
    var a, b :| 0 <= a < |inputForms| && 0 <= b < |descForms| && FormMatches(inputForms[a], descForms[b]);
  }

  /** The test is not symmetric: a short word matches a longer one that
      contains it, but not the other way round. */
  lemma WordsMatchAsymmetric()
    ensures WordsMatch("book", "notebook")
    ensures !WordsMatch("notebook", "book")
  {
    BookInNotebook("book", "notebook");
  }

  lemma BookInNotebook(short: string, long: string)
    requires short == "book" && long == "notebook"
    ensures WordsMatch(short, long) && !WordsMatch(long, short)
  {
    BookForms(short);
    NotebookForms(long);
    forall i | 0 <= i < 4 ensures long[4..8][i] == short[i] {
      assert long[4..8][i] == long[4 + i];
    }
    assert long[4..8] == short;
    assert OccursAt(long, short, 4);
    assert FormMatches(short, long);
  }

  lemma BookForms(w: string)
    requires w == "book"
    ensures BaseForms(w) == ["book"]
  {
    LowerOfLowercase(w);
    assert w[1..] == "ook" && w[2..] == "ok" && w[3..] == "k";
  }

  lemma NotebookForms(w: string)
    requires w == "notebook"
    ensures BaseForms(w) == ["notebook"]
  {
    LowerOfLowercase(w);
    assert w[5..] == "ook" && w[6..] == "ok" && w[7..] == "k";
  }

  /** The plural rules as written: "bodies" gives "body", "borrowers" gives
      "borrower", the bare word "ies" gives "y", and "bus" (too short for the
      "s" rule) is unchanged. */
  lemma BaseFormPluralExamples()
    ensures BaseForm("bodies") == "body"
    ensures BaseForm("borrowers") == "borrower"
    ensures BaseForm("ies") == "y"
    ensures BaseForm("bus") == "bus"
  {
    BodiesForm("bodies");
    BorrowersForm("borrowers");
    IesForm("ies");
    BusForm("bus");
  }

  lemma BodiesForm(w: string)
    requires w == "bodies"
    ensures BaseForm(w) == "body"
  {
    LowerOfLowercase(w);
    assert w[3..] == "ies" && w[..3] == "bod";
  }

  lemma BorrowersForm(w: string)
    requires w == "borrowers"
    ensures BaseForm(w) == "borrower"
  {
    LowerOfLowercase(w);
    assert w[6..] == "ers" && w[8..] == "s" && w[..8] == "borrower";
  }

  lemma IesForm(w: string)
    requires w == "ies"
    ensures BaseForm(w) == "y"
  {
    LowerOfLowercase(w);
    assert w[..0] == "";
  }

  lemma BusForm(w: string)
    requires w == "bus"
    ensures BaseForm(w) == "bus"
  {
    LowerOfLowercase(w);
    assert w[0..] == "bus" && w[1..] == "us" && w[2..] == "s";
  }

  /** The tense rules as written: "issued" gives "issu" (not "issue"), and
      "borrowing" gives "borrow". */
  lemma BaseFormTenseExamples()
    ensures BaseForm("issued") == "issu"
    ensures BaseForm("borrowing") == "borrow"
  {
    IssuedForm("issued");
    BorrowingForm("borrowing");
  }

  lemma IssuedForm(w: string)
    requires w == "issued"
    ensures BaseForm(w) == "issu"
  {
    LowerOfLowercase(w);
    assert w[3..] == "ued" && w[5..] == "d" && w[4..] == "ed";
    assert w[..4] == "issu";
  }

  lemma BorrowingForm(w: string)
    requires w == "borrowing"
    ensures BaseForm(w) == "borrow"
  {
    LowerOfLowercase(w);
    assert w[6..] == "ing" && w[7..] == "ng" && w[8..] == "g";
    assert w[..6] == "borrow";
  }

  /** A word without capitals is its own lowercase. */
  lemma LowerOfLowercase(w: string)
    requires forall i :: 0 <= i < |w| ==> !('A' <= w[i] <= 'Z')
    ensures Lower(w) == w
  {
  }

  /** `baseForm` is not idempotent: a second application can strip again. */
  lemma BaseFormNotIdempotent()
    ensures BaseForm("needed") == "need"
    ensures BaseForm(BaseForm("needed")) == "ne"
  {
    NeededForm("needed");
    NeedForm("need");
  }

  lemma NeededForm(w: string)
    requires w == "needed"
    ensures BaseForm(w) == "need"
  {
    LowerOfLowercase(w);
    assert w[3..] == "ded" && w[5..] == "d" && w[4..] == "ed";
    assert w[..4] == "need";
  }

  lemma NeedForm(w: string)
    requires w == "need"
    ensures BaseForm(w) == "ne"
  {
    LowerOfLowercase(w);
    assert w[1..] == "eed" && w[3..] == "d" && w[2..] == "ed";
    assert w[..2] == "ne";
  }

  /** `descWords.some(d => matchesWord(word, d))`. */
  predicate MatchesAnyToken(word: string, tokens: seq<string>) {
    exists k :: 0 <= k < |tokens| && WordsMatch(word, tokens[k])
  }

  /** The `some` over description tokens (App.tsx:522, 455). */
  method AnyTokenMatches(word: string, tokens: seq<string>) returns (m: bool)
    ensures m == MatchesAnyToken(word, tokens)
  {
    for k := 0 to |tokens|
      invariant forall k' :: 0 <= k' < k ==> !WordsMatch(word, tokens[k'])
    {
      m := MatchesWord(word, tokens[k]);
      if m {
        return;
      }
    }
    return false;
  }
}
