/** String primitives of the retrieval engine: ASCII case mapping, substring
    search, the splitting behind `tokenize` (`split(/[^a-z0-9]+/)`) and behind
    the query-term split `split(/\W+/)`, and the small formatting helpers used
    when the context string is assembled. */
module Text {

  /** `toLowerCase` on one character, restricted to ASCII. */
  function LowerChar(c: char): char {
    if 'A' <= c <= 'Z' then (c as int + 32) as char else c
  }

  /** `toUpperCase` on one character, restricted to ASCII. */
  function UpperChar(c: char): char {
    if 'a' <= c <= 'z' then (c as int - 32) as char else c
  }

  function Lower(s: string): string {
    seq(|s|, i requires 0 <= i < |s| => LowerChar(s[i]))
  }

  function Upper(s: string): string {
    seq(|s|, i requires 0 <= i < |s| => UpperChar(s[i]))
  }

  lemma LowerAppend(a: string, b: string)
    ensures Lower(a + b) == Lower(a) + Lower(b)
  {
  }

  /** `needle` occurs in `hay` starting at index `k`. */
  predicate OccursAt(hay: string, needle: string, k: nat) {
    k + |needle| <= |hay| && hay[k..k + |needle|] == needle
  }

  /** `hay.includes(needle)`. */
  predicate Contains(hay: string, needle: string) {
    exists k :: 0 <= k <= |hay| && OccursAt(hay, needle, k)
  }

  /** `s.endsWith(suffix)`. */
  predicate EndsWith(s: string, suffix: string) {
    |suffix| <= |s| && s[|s| - |suffix|..] == suffix
  }

  lemma ContainsItself(s: string)
    ensures Contains(s, s)
  {
    assert OccursAt(s, s, 0);
  }

  /** Characters that `tokenize` keeps together once the text is lowercased:
      the complement of its delimiter class `[^a-z0-9]`. */
  predicate IsTokenChar(c: char) {
    'a' <= c <= 'z' || '0' <= c <= '9'
  }

  /** Characters of the regular-expression class `\w`, i.e. `[A-Za-z0-9_]`. */
  predicate IsRegexWordChar(c: char) {
    'a' <= c <= 'z' || 'A' <= c <= 'Z' || '0' <= c <= '9' || c == '_'
  }

  predicate AllChars(s: string, inWord: char -> bool) {
    forall i :: 0 <= i < |s| ==> inWord(s[i])
  }

  /** `s.split(D)` where `D` is the single-character delimiter class of all
      characters outside `inWord`: one piece per delimiter plus one, empty
      pieces included. Splitting on runs of delimiters (`D+`) differs only in
      the empty pieces, which every caller drops. */
  function Pieces(s: string, inWord: char -> bool): (r: seq<string>)
    ensures |r| > 0
    decreases |s|
  {
    if s == [] then [""]
    else
      var rest := Pieces(s[1..], inWord);
      if inWord(s[0]) then [[s[0]] + rest[0]] + rest[1..] else [""] + rest
  }

  /** `.filter(Boolean)` on strings: drops the empty pieces. */
  function NonEmpty(ps: seq<string>): seq<string> {
    if ps == [] then []
    else (if ps[0] == "" then [] else [ps[0]]) + NonEmpty(ps[1..])
  }

  /** A token as `tokenize` produces it: non-empty, made of `[a-z0-9]`. */
  predicate IsToken(t: string) {
    t != [] && AllChars(t, IsTokenChar)
  }

  /** `text.toLowerCase().split(/[^a-z0-9]+/).filter(Boolean)`
      (App.tsx:408-413). */
  function Tokenize(text: string): (r: seq<string>)
    ensures forall k :: 0 <= k < |r| ==> IsToken(r[k])
  {
    PiecesAreWords(Lower(text), IsTokenChar);
    NonEmptyKeepsNonEmpty(Pieces(Lower(text), IsTokenChar), IsTokenChar);
    NonEmpty(Pieces(Lower(text), IsTokenChar))
  }

  lemma {:induction false} PiecesAreWords(s: string, inWord: char -> bool)
    ensures forall k :: 0 <= k < |Pieces(s, inWord)| ==> AllChars(Pieces(s, inWord)[k], inWord)
    decreases |s|
  {
    if s != [] {
      PiecesAreWords(s[1..], inWord);
    }
  }

  lemma {:induction false} NonEmptyKeepsNonEmpty(ps: seq<string>, inWord: char -> bool)
    requires forall k :: 0 <= k < |ps| ==> AllChars(ps[k], inWord)
    ensures forall k :: 0 <= k < |NonEmpty(ps)| ==> NonEmpty(ps)[k] != [] && AllChars(NonEmpty(ps)[k], inWord)
  {
    if ps != [] {
      NonEmptyKeepsNonEmpty(ps[1..], inWord);
    }
  }

  lemma {:induction false} NonEmptyAppend(x: seq<string>, y: seq<string>)
    ensures NonEmpty(x + y) == NonEmpty(x) + NonEmpty(y)
  {
    if x == [] {
      assert x + y == y;
    } else {
      assert (x + y)[1..] == x[1..] + y;
      NonEmptyAppend(x[1..], y);
    }
  }

  /** A run of word characters is a single piece. */
  lemma {:induction false} PiecesOfWord(w: string, inWord: char -> bool)
    requires AllChars(w, inWord)
    ensures Pieces(w, inWord) == [w]
    decreases |w|
  {
    if w != [] {
      PiecesOfWord(w[1..], inWord);
      assert [w[0]] + w[1..] == w;
    }
  }

  /** A delimiter cuts the text in two, and the pieces of the halves follow
      each other in text order. */
  lemma {:induction false} PiecesAcrossDelimiter(a: string, d: char, b: string, inWord: char -> bool)
    requires !inWord(d)
    ensures Pieces(a + [d] + b, inWord) == Pieces(a, inWord) + Pieces(b, inWord)
    decreases |a|
  {
    if a == [] {
      assert a + [d] + b == [d] + b;
      assert ([d] + b)[1..] == b;
    } else {
      assert (a + [d] + b)[1..] == a[1..] + [d] + b;
      PiecesAcrossDelimiter(a[1..], d, b, inWord);
    }
  }

  /** A text with some word character has a non-empty piece. */
  lemma {:induction false} PiecesFindWordChar(s: string, inWord: char -> bool, i: nat)
    requires i < |s| && inWord(s[i])
    ensures exists k :: 0 <= k < |Pieces(s, inWord)| && Pieces(s, inWord)[k] != []
    decreases |s|
  {
    if i == 0 {
      assert Pieces(s, inWord)[0] != [];
    } else {
      PiecesFindWordChar(s[1..], inWord, i - 1);
      var rest := Pieces(s[1..], inWord);
      var k :| 0 <= k < |rest| && rest[k] != [];
      if inWord(s[0]) {
        assert Pieces(s, inWord)[0] != [];
      } else {
        assert Pieces(s, inWord)[k + 1] == rest[k];
      }
    }
  }

  lemma {:induction false} NonEmptyKeepsSome(ps: seq<string>, k: nat)
    requires k < |ps| && ps[k] != []
    ensures NonEmpty(ps) != []
  {
    if k > 0 {
      NonEmptyKeepsSome(ps[1..], k - 1);
    }
  }

  /** `tokenize("")` is the empty sequence. */
  lemma TokenizeEmpty()
    ensures Tokenize("") == []
  {
    assert Lower("") == "";
    assert NonEmpty([""]) == NonEmpty([]);
  }

  /** A run of letters and digits, in either case, is one token: its
      lowercase form. */
  lemma TokenizeWord(w: string)
    requires w != [] && forall i :: 0 <= i < |w| ==> IsTokenChar(LowerChar(w[i]))
    ensures Tokenize(w) == [Lower(w)]
  {
    var lw := Lower(w);
    assert AllChars(lw, IsTokenChar);
    PiecesOfWord(lw, IsTokenChar);
    assert [lw][1..] == [];
    assert lw != "";
    assert NonEmpty([lw]) == [lw] + NonEmpty([]);
  }

  /** Any character that lowercases to a delimiter separates tokens: the
      tokens of the text are those of the part before it followed by those of
      the part after it. Every text is empty, one run of letters and digits,
      or two texts around such a character, so with `TokenizeWord` and
      `TokenizeEmpty` this fixes the result on every input, in text order. */
  lemma TokenizeAcrossDelimiter(a: string, d: char, b: string)
    requires !IsTokenChar(LowerChar(d))
    ensures Tokenize(a + [d] + b) == Tokenize(a) + Tokenize(b)
  {
    assert Lower(a + [d] + b) == Lower(a) + [LowerChar(d)] + Lower(b);
    PiecesAcrossDelimiter(Lower(a), LowerChar(d), Lower(b), IsTokenChar);
    NonEmptyAppend(Pieces(Lower(a), IsTokenChar), Pieces(Lower(b), IsTokenChar));
  }

  /** `tokenize` returns nothing only for a text with no letter or digit. */
  lemma TokenizeNothing(text: string)
    ensures Tokenize(text) == [] <==> forall i :: 0 <= i < |text| ==> !IsTokenChar(LowerChar(text[i]))
  {
    if exists i :: 0 <= i < |text| && IsTokenChar(LowerChar(text[i])) {
      var i :| 0 <= i < |text| && IsTokenChar(LowerChar(text[i]));
      PiecesFindWordChar(Lower(text), IsTokenChar, i);
      var ps := Pieces(Lower(text), IsTokenChar);
      var k :| 0 <= k < |ps| && ps[k] != [];
      NonEmptyKeepsSome(ps, k);
    } else {
      NoWordCharNoToken(Lower(text), IsTokenChar);
    }
  }

  lemma {:induction false} NoWordCharNoToken(s: string, inWord: char -> bool)
    requires forall i :: 0 <= i < |s| ==> !inWord(s[i])
    ensures NonEmpty(Pieces(s, inWord)) == []
    decreases |s|
  {
    if s != [] {
      NoWordCharNoToken(s[1..], inWord);
    }
  }

  /** `Array.from(new Set(xs))`: the distinct members of `xs` in order of
      first occurrence. */
  function Dedup(xs: seq<string>): seq<string> {
    if xs == [] then []
    else
      var d := Dedup(xs[..|xs| - 1]);
      if xs[|xs| - 1] in d then d else d + [xs[|xs| - 1]]
  }

  lemma {:induction false} DedupMembers(xs: seq<string>)
    ensures forall x :: x in Dedup(xs) <==> x in xs
  {
    if xs != [] {
      DedupMembers(xs[..|xs| - 1]);
      assert xs == xs[..|xs| - 1] + [xs[|xs| - 1]];
    }
  }

  lemma {:induction false} DedupDistinct(xs: seq<string>)
    ensures forall i, j :: 0 <= i < j < |Dedup(xs)| ==> Dedup(xs)[i] != Dedup(xs)[j]
  {
    if xs != [] {
      DedupDistinct(xs[..|xs| - 1]);
    }
  }

  /** The first string always survives, in first place. */
  lemma {:induction false} DedupFirst(xs: seq<string>)
    requires xs != []
    ensures Dedup(xs) != [] && Dedup(xs)[0] == xs[0]
  {
    if |xs| > 1 {
      DedupFirst(xs[..|xs| - 1]);
    }
  }

  /** `parts.join(sep)`. */
  function Join(parts: seq<string>, sep: string): string {
    if |parts| == 0 then ""
    else if |parts| == 1 then parts[0]
    else parts[0] + sep + Join(parts[1..], sep)
  }

  /** `[x, ...rest].join(sep)` is `x`, the separator, and `rest` joined. */
  lemma JoinCons(x: string, rest: seq<string>, sep: string)
    requires rest != []
    ensures Join([x] + rest, sep) == x + sep + Join(rest, sep)
  {
    assert ([x] + rest)[1..] == rest;
  }

  lemma ContainsLeft(a: string, b: string, x: string)
    requires Contains(a, x)
    ensures Contains(a + b, x)
  {
    var k :| 0 <= k <= |a| && OccursAt(a, x, k);
    assert (a + b)[k..k + |x|] == a[k..k + |x|];
    assert OccursAt(a + b, x, k);
  }

  lemma ContainsRight(a: string, b: string, x: string)
    requires Contains(b, x)
    ensures Contains(a + b, x)
  {
    var k :| 0 <= k <= |b| && OccursAt(b, x, k);
    assert (a + b)[|a| + k..|a| + k + |x|] == b[k..k + |x|];
    assert OccursAt(a + b, x, |a| + k);
  }

  lemma ContainsTrans(a: string, b: string, c: string)
    requires Contains(a, b) && Contains(b, c)
    ensures Contains(a, c)
  {
    var i :| 0 <= i <= |a| && OccursAt(a, b, i);
    var j :| 0 <= j <= |b| && OccursAt(b, c, j);
    forall m | 0 <= m < |c|
      ensures a[i + j + m] == c[m]
    {
      assert a[i..i + |b|][j + m] == b[j + m];
      assert b[j..j + |c|][m] == c[m];
    }
    assert a[i + j..i + j + |c|] == c;
    assert OccursAt(a, c, i + j);
  }

  lemma ContainsLength(a: string, x: string)
    requires Contains(a, x)
    ensures |a| >= |x|
  {
  }

  /** Every part appears in the joined string. */
  lemma {:induction false} JoinHasParts(parts: seq<string>, sep: string)
    ensures forall k :: 0 <= k < |parts| ==> Contains(Join(parts, sep), parts[k])
  {
    if |parts| == 1 {
      ContainsItself(parts[0]);
    } else if |parts| > 1 {
      var rest := parts[1..];
      JoinHasParts(rest, sep);
      var j := Join(parts, sep);
      assert j == parts[0] + sep + Join(rest, sep);
      forall k | 0 <= k < |parts|
        ensures Contains(j, parts[k])
      {
        if k == 0 {
          ContainsItself(parts[0]);
          ContainsLeft(parts[0], sep + Join(rest, sep), parts[0]);
          assert parts[0] + sep + Join(rest, sep) == parts[0] + (sep + Join(rest, sep));
        } else {
          assert rest[k - 1] == parts[k];
          ContainsRight(parts[0] + sep, Join(rest, sep), parts[k]);
        }
      }
    }
  }

  /** Joining non-empty parts gives the empty string only for no parts. */
  lemma {:induction false} JoinEmpty(parts: seq<string>, sep: string)
    requires forall k :: 0 <= k < |parts| ==> parts[k] != ""
    ensures Join(parts, sep) == "" <==> parts == []
  {
    if |parts| > 1 {
      assert |Join(parts, sep)| >= |parts[0]|;
    }
  }

  /** Every part appears in the concatenation. */
  lemma {:induction false} ConcatHasParts(parts: seq<string>)
    ensures forall k :: 0 <= k < |parts| ==> Contains(Concat(parts), parts[k])
  {
    if parts != [] {
      var init := parts[..|parts| - 1];
      var last := parts[|parts| - 1];
      ConcatHasParts(init);
      forall k | 0 <= k < |parts|
        ensures Contains(Concat(parts), parts[k])
      {
        if k < |init| {
          assert init[k] == parts[k];
          ContainsLeft(Concat(init), last, parts[k]);
        } else {
          ContainsItself(last);
          ContainsRight(Concat(init), last, last);
        }
      }
    }
  }

  /** Concatenation of a sequence of strings. */
  function Concat(parts: seq<string>): string {
    if parts == [] then "" else Concat(parts[..|parts| - 1]) + parts[|parts| - 1]
  }

  function DigitChar(d: nat): char
    requires d < 10
  {
    "0123456789"[d]
  }

  function NatToString(n: nat): string
    decreases n
  {
    if n < 10 then [DigitChar(n)] else NatToString(n / 10) + [DigitChar(n % 10)]
  }

  /** Decimal rendering of an integer, as a template literal shows it. */
  function IntToString(i: int): string {
    if i < 0 then "-" + NatToString(-i) else NatToString(i)
  }
}
