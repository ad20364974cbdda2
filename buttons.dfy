/** The reply-button protocol: the model writes `[[label]]` into its answer;
    `parseOptions` (App.tsx:217-221) turns each into a button, and the same
    pattern is cut out of the text that is shown or exported (App.tsx:15,
    739). The pattern is `\[\[(.*?)\]\]` searched globally: at each position
    from left to right, "[[" then the shortest run of characters other than
    line terminators up to the next "]]"; the search resumes after a match. */
module Buttons {
  import opened Wrappers
  import opened Text

  /** The characters `.` does not match. */
  predicate IsLineTerminator(c: char) {
    c == '\n' || c == '\r' || c == '\U{2028}' || c == '\U{2029}'
  }

  /** Where the lazy `.*?\]\]` that starts at `i` stops: the index of the
      first "]]" reached before any line terminator, if there is one. */
  function CloseAt(s: string, i: nat): (r: Option<nat>)
    ensures r.Some? ==> i <= r.value && r.value + 2 <= |s| && s[r.value] == ']' && s[r.value + 1] == ']'
    decreases |s| - i
  {
    if i + 2 > |s| then None
    else if s[i] == ']' && s[i + 1] == ']' then Some(i)
    else if IsLineTerminator(s[i]) then None
    else CloseAt(s, i + 1)
  }

  /** The text split into plain characters and matched buttons. */
  datatype Segment = Plain(c: char) | Button(caption: string)

  /** A match starts at the front of `t`: "[[" there, closed further on. */
  predicate OpensAt(t: string) {
    2 <= |t| && t[0] == '[' && t[1] == '[' && CloseAt(t, 2).Some?
  }

  /** The global search over `t`; after a match it resumes behind the
      closing "]]", otherwise one character further on. */
  function Segments(t: string): seq<Segment>
    decreases |t|
  {
    if t == [] then []
    else if OpensAt(t) then
      [Button(t[2..CloseAt(t, 2).value])] + Segments(t[CloseAt(t, 2).value + 2..])
    else [Plain(t[0])] + Segments(t[1..])
  }

  function Labels(segs: seq<Segment>): seq<string> {
    if segs == [] then []
    else (if segs[0].Button? then [segs[0].caption] else []) + Labels(segs[1..])
  }

  function PlainText(segs: seq<Segment>): string {
    if segs == [] then []
    else (if segs[0].Plain? then [segs[0].c] else []) + PlainText(segs[1..])
  }

  /** Writes the segments back out. */
  function Render(segs: seq<Segment>): string {
    if segs == [] then []
    else (match segs[0] case Plain(c) => [c] case Button(l) => "[[" + l + "]]") + Render(segs[1..])
  }

  /** `parseOptions(text)`: the inner text of every match, left to right
      (no match gives the empty list). Every label is one the pattern can
      read back whole. */
  function ParseOptions(s: string): (r: seq<string>)
    ensures forall k :: 0 <= k < |r| ==> Closable(r[k])
  {
    OptionsClosable(s);
    Labels(Segments(s))
  }

  /** `text.replace(/\[\[.*?\]\]/g, '')`: each match removed, with at least
      its four brackets. */
  function StripButtons(s: string): (r: string)
    ensures |r| + 4 * |ParseOptions(s)| <= |s|
  {
    ButtonsTakeRoom(s);
    PlainText(Segments(s))
  }

  /** A label that the pattern reads back whole: no line terminator, and no
      "]" followed by another "]" or by the end of the label. */
  predicate Closable(l: string) {
    forall k {:trigger l[k]} :: 0 <= k < |l| ==> !IsLineTerminator(l[k]) && !(l[k] == ']' && (k + 1 == |l| || l[k + 1] == ']'))
  }

  /** The plain characters and the buttons, four brackets each, fit in the
      text. */
  lemma {:induction false} ButtonsTakeRoom(t: string)
    ensures |PlainText(Segments(t))| + 4 * |Labels(Segments(t))| <= |t|
    decreases |t|
  {
    if t != [] {
      if OpensAt(t) {
        var j := CloseAt(t, 2).value;
        var rest := Segments(t[j + 2..]);
        ButtonsTakeRoom(t[j + 2..]);
        SegmentsOpen(t, j, rest);
        ReadButton(t[2..j], rest);
      } else {
        var rest := Segments(t[1..]);
        ButtonsTakeRoom(t[1..]);
        assert Segments(t) == [Plain(t[0])] + rest;
        ReadPlain(t[0], rest);
      }
    }
  }

  lemma {:induction false} CloseAtIsFirst(s: string, i: nat)
    requires CloseAt(s, i).Some?
    ensures forall k :: i <= k < CloseAt(s, i).value ==>
      !IsLineTerminator(s[k]) && !(s[k] == ']' && s[k + 1] == ']')
    decreases |s| - i
  {
    if !(s[i] == ']' && s[i + 1] == ']') {
      CloseAtIsFirst(s, i + 1);
    }
  }

  /** Writing the segments back gives the text: the search only cuts it up. */
  lemma {:induction false} RenderSegments(t: string)
    ensures Render(Segments(t)) == t
    decreases |t|
  {
    if t != [] {
      if OpensAt(t) {
        var j := CloseAt(t, 2).value;
        var rest := Segments(t[j + 2..]);
        RenderSegments(t[j + 2..]);
        RenderAtOpen(t, j, rest);
      } else {
        var rest := Segments(t[1..]);
        RenderSegments(t[1..]);
        RenderAtPlain(t, rest);
      }
    }
  }

  lemma {:induction false} RenderAtOpen(t: string, j: nat, rest: seq<Segment>)
    requires OpensAt(t) && CloseAt(t, 2) == Some(j)
    requires rest == Segments(t[j + 2..]) && Render(rest) == t[j + 2..]
    ensures Render(Segments(t)) == t
  {
    SegmentsOpen(t, j, rest);
    RenderButton(t[2..j], rest);
    SplitAround(t, j);
  }

  /** One step of the search where a match starts. */
  lemma SegmentsOpen(t: string, j: nat, rest: seq<Segment>)
    requires OpensAt(t) && CloseAt(t, 2) == Some(j)
    requires rest == Segments(t[j + 2..])
    ensures Segments(t) == [Button(t[2..j])] + rest
  {
  }

  lemma {:induction false} RenderAtPlain(t: string, rest: seq<Segment>)
    requires t != [] && !OpensAt(t)
    requires rest == Segments(t[1..]) && Render(rest) == t[1..]
    ensures Render(Segments(t)) == t
  {
    assert Segments(t) == [Plain(t[0])] + rest;
    assert ([Plain(t[0])] + rest)[1..] == rest;
    assert t == [t[0]] + t[1..];
  }

  lemma {:induction false} RenderButton(l: string, rest: seq<Segment>)
    ensures Render([Button(l)] + rest) == "[[" + l + "]]" + Render(rest)
  {
    assert ([Button(l)] + rest)[1..] == rest;
  }

  /** A text that opens with "[[" and closes at `j` is the label in
      brackets followed by the rest. */
  lemma {:induction false} SplitAround(t: string, j: nat)
    requires 2 <= j && j + 2 <= |t|
    requires t[0] == '[' && t[1] == '[' && t[j] == ']' && t[j + 1] == ']'
    ensures t == "[[" + t[2..j] + "]]" + t[j + 2..]
  {
    assert t[..2] == "[[";
    assert t[j..j + 2] == "]]";
    assert t == t[..j] + t[j..];
    assert t[..j] == t[..2] + t[2..j];
    assert t[j..] == t[j..j + 2] + t[j + 2..];
  }

  /** Every option is closable; in particular it holds no line break and no
      "]]". */
  lemma {:induction false} OptionsClosable(t: string)
    ensures forall k :: 0 <= k < |Labels(Segments(t))| ==> Closable(Labels(Segments(t))[k])
    decreases |t|
  {
    if t != [] {
      if OpensAt(t) {
        var j := CloseAt(t, 2).value;
        OptionsClosable(t[j + 2..]);
        LabelClosable(t, j);
        var segs := [Button(t[2..j])] + Segments(t[j + 2..]);
        assert Segments(t) == segs;
        assert segs[1..] == Segments(t[j + 2..]);
        assert Labels(segs) == [t[2..j]] + Labels(Segments(t[j + 2..]));
      } else {
        OptionsClosable(t[1..]);
        var segs := [Plain(t[0])] + Segments(t[1..]);
        assert Segments(t) == segs;
        assert segs[1..] == Segments(t[1..]);
      }
    }
  }

  /** The text the lazy search skips over before its "]]" is closable. */
  lemma {:induction false} LabelClosable(t: string, j: nat)
    requires CloseAt(t, 2) == Some(j)
    ensures Closable(t[2..j])
  {
    CloseAtIsFirst(t, 2);
    var l := t[2..j];
    forall k | 0 <= k < |l|
      ensures !IsLineTerminator(l[k]) && !(l[k] == ']' && (k + 1 == |l| || l[k + 1] == ']'))
    {
      assert l[k] == t[2 + k];
      if k + 1 < |l| {
        assert l[k + 1] == t[2 + k + 1];
      }
    }
  }

  lemma {:induction false} ClosableHasNoClose(l: string)
    requires Closable(l)
    ensures !Contains(l, "]]")
    ensures forall k :: 0 <= k < |l| ==> l[k] != '\n'
  {
    forall k | 0 <= k <= |l|
      ensures !OccursAt(l, "]]", k)
    {
      if k + 2 <= |l| {
        assert l[k..k + 2][0] == l[k];
        assert l[k..k + 2][1] == l[k + 1];
      }
    }
  }

  /** The options of a text contain no "]]" and no line feed. */
  lemma {:induction false} ParseOptionsClean(s: string)
    ensures forall k :: 0 <= k < |ParseOptions(s)| ==>
      !Contains(ParseOptions(s)[k], "]]") && forall i :: 0 <= i < |ParseOptions(s)[k]| ==> ParseOptions(s)[k][i] != '\n'
  {
    OptionsClosable(s);
    forall k | 0 <= k < |ParseOptions(s)|
      ensures !Contains(ParseOptions(s)[k], "]]")
      ensures forall i :: 0 <= i < |ParseOptions(s)[k]| ==> ParseOptions(s)[k][i] != '\n'
    {
      ClosableHasNoClose(ParseOptions(s)[k]);
    }
  }

  /** Text with no "[" followed by "[": no button, all of it plain. */
  lemma {:induction false} NoOpenAll(t: string)
    requires forall k :: 0 <= k && k + 1 < |t| ==> !(t[k] == '[' && t[k + 1] == '[')
    ensures Labels(Segments(t)) == []
    ensures PlainText(Segments(t)) == t
    decreases |t|
  {
    if t != [] {
      var u := t[1..];
      forall k | 0 <= k && k + 1 < |u|
        ensures !(u[k] == '[' && u[k + 1] == '[')
      {
        assert u[k] == t[k + 1] && u[k + 1] == t[k + 2];
      }
      NoOpenAll(u);
      ReadPlain(t[0], Segments(u));
      assert Segments(t) == [Plain(t[0])] + Segments(u);
      assert t == [t[0]] + u;
    }
  }

  /** A text without "[[" has no options and is shown unchanged. */
  lemma {:induction false} NoOpenNoOptions(s: string)
    requires !Contains(s, "[[")
    ensures ParseOptions(s) == []
    ensures StripButtons(s) == s
  {
    forall k | 0 <= k && k + 1 < |s|
      ensures !(s[k] == '[' && s[k + 1] == '[')
    {
      OpenPairOccurs(s, k);
    }
    NoOpenAll(s);
  }

  /** "[" followed by "[" at `k` is an occurrence of "[[". */
  lemma OpenPairOccurs(s: string, k: nat)
    requires k + 1 < |s|
    ensures s[k] == '[' && s[k + 1] == '[' ==> OccursAt(s, "[[", k)
  {
    if s[k] == '[' && s[k + 1] == '[' {
      assert s[k..k + 2] == "[[";
    }
  }

  /** Text without "[" in front of the rest adds no option and is kept as
      it is. */
  lemma {:induction false} PlainPrefixOptions(a: string, b: string)
    requires forall k :: 0 <= k < |a| ==> a[k] != '['
    ensures Labels(Segments(a + b)) == Labels(Segments(b))
    ensures PlainText(Segments(a + b)) == a + PlainText(Segments(b))
    decreases |a|
  {
    if a == [] {
      assert a + b == b;
    } else {
      var u := a[1..];
      assert (a + b)[0] == a[0];
      assert (a + b)[1..] == u + b;
      assert Segments(a + b) == [Plain(a[0])] + Segments(u + b);
      forall k | 0 <= k < |u|
        ensures u[k] != '['
      {
        assert u[k] == a[k + 1];
      }
      PlainPrefixOptions(u, b);
      ReadPlain(a[0], Segments(u + b));
      assert a == [a[0]] + u;
    }
  }

  lemma {:induction false} ReadPlain(c: char, rest: seq<Segment>)
    ensures Labels([Plain(c)] + rest) == Labels(rest)
    ensures PlainText([Plain(c)] + rest) == [c] + PlainText(rest)
  {
    assert ([Plain(c)] + rest)[1..] == rest;
  }

  lemma {:induction false} ReadButton(l: string, rest: seq<Segment>)
    ensures Labels([Button(l)] + rest) == [l] + Labels(rest)
    ensures PlainText([Button(l)] + rest) == PlainText(rest)
  {
    assert ([Button(l)] + rest)[1..] == rest;
  }

  /** A closable label in brackets in front of the rest is read back as the
      first option, and removed from the text. */
  lemma {:induction false} ButtonPrefixOptions(l: string, b: string)
    requires Closable(l)
    ensures Labels(Segments("[[" + l + "]]" + b)) == [l] + Labels(Segments(b))
    ensures PlainText(Segments("[[" + l + "]]" + b)) == PlainText(Segments(b))
  {
    var s := "[[" + l + "]]" + b;
    ClosableClosesAt(l, b, 0);
    assert s[2..2 + |l|] == l;
    assert s[2 + |l| + 2..] == b;
    assert Segments(s) == [Button(l)] + Segments(b);
    ReadButton(l, Segments(b));
  }

  /** One button after plain text: its label is the first option, and the
      text shown keeps the plain text and drops the button. */
  lemma {:induction false} OneButton(a: string, l: string, b: string)
    requires forall k :: 0 <= k < |a| ==> a[k] != '['
    requires Closable(l)
    ensures ParseOptions(a + "[[" + l + "]]" + b) == [l] + ParseOptions(b)
    ensures StripButtons(a + "[[" + l + "]]" + b) == a + StripButtons(b)
  {
    var rest := "[[" + l + "]]" + b;
    assert a + "[[" + l + "]]" + b == a + rest;
    ButtonPrefixOptions(l, b);
    PlainPrefixOptions(a, rest);
  }

  /** The lazy search started inside a closable label stops at the "]]" that
      follows it. */
  lemma {:induction false} ClosableClosesAt(l: string, b: string, k: nat)
    requires Closable(l)
    requires k <= |l|
    ensures CloseAt("[[" + l + "]]" + b, 2 + k) == Some(2 + |l|)
    decreases |l| - k
  {
    var s := "[[" + l + "]]" + b;
    assert s[2 + |l|] == ']' && s[3 + |l|] == ']';
    if k < |l| {
      assert s[2 + k] == l[k];
      if k + 1 < |l| {
        assert s[3 + k] == l[k + 1];
      }
      assert !IsLineTerminator(l[k]) && !(l[k] == ']' && (k + 1 == |l| || l[k + 1] == ']'));
      assert !(s[2 + k] == ']' && s[2 + k + 1] == ']');
      ClosableClosesAt(l, b, k + 1);
      assert CloseAt(s, 2 + k) == CloseAt(s, 2 + k + 1);
    }
  }

  /** A button written by itself is read back: `parseOptions("[[l]]")` is
      `[l]` for every closable `l`. */
  lemma {:induction false} ButtonRoundTrip(l: string)
    requires Closable(l)
    ensures ParseOptions("[[" + l + "]]") == [l]
  {
    ButtonPrefixOptions(l, "");
    assert "[[" + l + "]]" + "" == "[[" + l + "]]";
  }

  /** Text, a button, more text and a second button: the two labels come
      back in order. */
  lemma {:induction false} TwoButtons(a: string, l1: string, b: string, l2: string)
    requires forall k :: 0 <= k < |a| ==> a[k] != '['
    requires forall k :: 0 <= k < |b| ==> b[k] != '['
    requires Closable(l1) && Closable(l2)
    ensures ParseOptions(a + "[[" + l1 + "]]" + b + "[[" + l2 + "]]") == [l1, l2]
  {
    var second := "[[" + l2 + "]]";
    var spaced := b + second;
    var first := "[[" + l1 + "]]" + spaced;
    assert a + "[[" + l1 + "]]" + b + "[[" + l2 + "]]" == a + first;
    ButtonRoundTrip(l2);
    PlainPrefixOptions(b, second);
    ButtonPrefixOptions(l1, spaced);
    PlainPrefixOptions(a, first);
  }

  /** The closing line of the two action replies (App.tsx:736, 743): after
      text without "[", "Anything else? [[New Issue]] [[Done]]" offers the
      two buttons, and the exported history (App.tsx:739) keeps only the text
      in front of them and the space between them. */
  lemma {:induction false} ClosingLineOptions(a: string, l1: string, b: string, l2: string)
    requires forall k :: 0 <= k < |a| ==> a[k] != '['
    requires l1 == "New Issue" && b == " " && l2 == "Done"
    ensures a + "[[" + l1 + "]]" + b + "[[" + l2 + "]]" == a + "[[New Issue]] [[Done]]"
    ensures ParseOptions(a + "[[New Issue]] [[Done]]") == ["New Issue", "Done"]
    ensures StripButtons(a + "[[New Issue]] [[Done]]") == a + " "
  {
    ClosingWords(l1, b, l2);
    var rest := b + "[[" + l2 + "]]";
    var tail := "[[" + l1 + "]]" + rest;
    assert a + "[[" + l1 + "]]" + b + "[[" + l2 + "]]" == a + tail;
    TwoButtons(a, l1, b, l2);
    OneButton(a, l1, rest);
    assert rest == b + "[[" + l2 + "]]" + "";
    OneButton(b, l2, "");
    assert StripButtons("") == "";
    assert StripButtons(rest) == b;
    assert tail == "[[New Issue]] [[Done]]";
    assert a + "[[" + l1 + "]]" + rest == a + tail;
  }

  /** The two labels and the separator of the closing line. */
  lemma {:induction false} ClosingWords(l1: string, b: string, l2: string)
    requires l1 == "New Issue" && b == " " && l2 == "Done"
    ensures Closable(l1) && Closable(l2)
    ensures forall k :: 0 <= k < |b| ==> b[k] != '['
    ensures "[[" + l1 + "]]" + b + "[[" + l2 + "]]" == "[[New Issue]] [[Done]]"
  {
  }
}
