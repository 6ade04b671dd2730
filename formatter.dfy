/** `formatRecipeResponse`: the chain of regular-expression replacements that
    turns the markdown of a recipe reply into HTML.

    The five replacements are modelled one function each, with the semantics
    of JavaScript's `replace` with a global regular expression: matches are
    searched from left to right, each one starting where the previous match
    ended. `.` matches any character but a line terminator, and with the `m`
    flag `^` and `$` match at the start and end of every line. */
module Formatter {
  import opened Wrappers
  import opened Text

  /** The characters that end a line for `.`, `^` and `$`. */
  predicate IsLineTerminator(c: char)
  {
    c == '\n' || c == '\r' || c == '\U{2028}' || c == '\U{2029}'
  }

  predicate NoTerminator(s: string)
  {
    forall i :: 0 <= i < |s| ==> !IsLineTerminator(s[i])
  }

  /** The index of the first line terminator at or after `from`. */
  function FirstTerminatorFrom(t: string, from: nat): (r: Option<nat>)
    requires from <= |t|
    ensures r.Some? ==> from <= r.value < |t| && IsLineTerminator(t[r.value])
    ensures r.Some? ==> forall i :: from <= i < r.value ==> !IsLineTerminator(t[i])
    ensures r.None? ==> forall i :: from <= i < |t| ==> !IsLineTerminator(t[i])
    decreases |t| - from
  {
    if from == |t| then None
    else if IsLineTerminator(t[from]) then Some(from)
    else FirstTerminatorFrom(t, from + 1)
  }

  function OpenTag(tag: string): string
  {
    "<" + tag + ">"
  }

  function CloseTag(tag: string): string
  {
    "</" + tag + ">"
  }

  /** One line (no terminator in it) under `/^marker(.*$)/`: a line that
      starts with the marker becomes the rest of the line inside the tag. */
  function HeadingLine(line: string, marker: string, tag: string): string
  {
    if StartsWith(line, marker) then OpenTag(tag) + line[|marker|..] + CloseTag(tag) else line
  }

  /** `text.replace(/^marker(.*$)/gm, '<tag>$1</tag>')`: every line is
      rewritten by `HeadingLine`, the terminators between lines are kept. */
  function Headings(t: string, marker: string, tag: string): string
    decreases |t|
  {
    match FirstTerminatorFrom(t, 0)
    case None => HeadingLine(t, marker, tag)
    case Some(i) => HeadingLine(t[..i], marker, tag) + [t[i]] + Headings(t[i + 1..], marker, tag)
  }

  /** The lazy group `(.*?)` followed by the closing delimiter, tried from
      `from`: the first index at which the delimiter occurs, unless a line
      terminator or the end of the text comes first. */
  function CloseAt(t: string, d: string, from: nat): (r: Option<nat>)
    requires from <= |t|
    ensures r.Some? ==> from <= r.value && OccursAt(t, d, r.value)
    decreases |t| - from
  {
    if OccursAt(t, d, from) then Some(from)
    else if from == |t| || IsLineTerminator(t[from]) then None
    else CloseAt(t, d, from + 1)
  }

  /** `text.replace(/d(.*?)d/g, '<tag>$1</tag>')`: where the delimiter
      opens a match at the current position, the match is replaced and the
      scan resumes after it; otherwise the character is kept and the scan
      moves on by one. */
  function Emphasis(t: string, d: string, tag: string): string
    requires |d| > 0
    decreases |t|, 1
  {
    if t == [] then [] else EmphasisAt(t, d, tag, OpensAt(t, d))
  }

  /** One step of `Emphasis` once it is known whether a match opens `t`. */
  function EmphasisAt(t: string, d: string, tag: string, m: Option<nat>): string
    requires |d| > 0 && t != [] && m == OpensAt(t, d)
    decreases |t|, 0
  {
    match m
    case Some(q) => OpenTag(tag) + t[|d|..q] + CloseTag(tag) + Emphasis(t[q + |d|..], d, tag)
    case None => [t[0]] + Emphasis(t[1..], d, tag)
  }

  /** A match of `d(.*?)d` at the start of `t`: the index of its closing delimiter. */
  function OpensAt(t: string, d: string): (r: Option<nat>)
    ensures r.Some? ==> |d| <= r.value && r.value + |d| <= |t|
  {
    if OccursAt(t, d, 0) then CloseAt(t, d, |d|) else None
  }

  /** `text.replace(/\n/g, '<br>')`. */
  function BreakLines(t: string): string
  {
    if t == [] then []
    else (if t[0] == '\n' then "<br>" else [t[0]]) + BreakLines(t[1..])
  }

  /** `formatRecipeResponse`: `### ` and `## ` lines become `h3` and `h2`
      headers, `**…**` becomes bold, `*…*` italic, and newlines `<br>`. */
  function FormatRecipeResponse(text: string): (html: string)
    ensures '\n' !in html
  {
    BreakLinesNoNewline(Markup(text));
    BreakLines(Markup(text))
  }

  /** The four replacements before the newline step. */
  function Markup(text: string): string
  {
    Emphases(Headers(text))
  }

  /** The two header replacements, `### ` first. */
  function Headers(text: string): string
  {
    Headings(Headings(text, "### ", "h3"), "## ", "h2")
  }

  /** The bold replacement, then the italic one. */
  function Emphases(text: string): string
  {
    Emphasis(Emphasis(text, "**", "strong"), "*", "em")
  }

  // ---------------------------------------------------------------------
  // The `<br>` step

  lemma {:induction false} BreakLinesAppend(x: string, y: string)
    ensures BreakLines(x + y) == BreakLines(x) + BreakLines(y)
  {
    if x == [] {
      assert x + y == y;
    } else {
      assert (x + y)[1..] == x[1..] + y;
      BreakLinesAppend(x[1..], y);
    }
  }

  /** No newline is left after the last step. */
  lemma {:induction false} BreakLinesNoNewline(t: string)
    ensures '\n' !in BreakLines(t)
  {
    if t != [] {
      BreakLinesNoNewline(t[1..]);
    }
  }

  /** Text without a newline is left alone. */
  lemma {:induction false} BreakLinesIdentity(t: string)
    requires '\n' !in t
    ensures BreakLines(t) == t
  {
    if t != [] {
      assert '\n' !in t[1..];
      BreakLinesIdentity(t[1..]);
    }
  }

  /** Replacing every newline by `<br>` is splitting on newlines and joining with `<br>`. */
  lemma {:induction false} BreakLinesIsSplitJoin(t: string)
    ensures BreakLines(t) == Join(Split(t, "\n"), "<br>")
    decreases |t|
  {
    match IndexOf(t, "\n")
    case None =>
      CharNotContainedIff(t, '\n');
      BreakLinesIdentity(t);
    case Some(i) =>
      var line, rest := t[..i], t[i + 1..];
      SplitUnfold(t, "\n", i);
      NoEarlierOccurrence(t, "\n", i);
      CharNotContainedIff(line, '\n');
      assert t[i..i + 1] == "\n";
      assert t == line + "\n" + rest;
      BreakLinesAppend(line + "\n", rest);
      BreakLinesAppend(line, "\n");
      BreakLinesIdentity(line);
      BreakLinesIsSplitJoin(rest);
      JoinCons(line, Split(rest, "\n"), "<br>");
  }

  // ---------------------------------------------------------------------
  // The heading steps

  /** The first terminator is the one that ends a stretch without terminators. */
  lemma {:induction false} FirstTerminatorIs(t: string, from: nat, k: nat)
    requires from <= k < |t| && IsLineTerminator(t[k])
    requires forall i :: from <= i < k ==> !IsLineTerminator(t[i])
    ensures FirstTerminatorFrom(t, from) == Some(k)
    decreases k - from
  {
    if from < k {
      FirstTerminatorIs(t, from + 1, k);
    }
  }

  /** A line followed by a terminator: the first terminator is that one. */
  lemma FirstTerminatorAfterLine(a: string, c: char, b: string)
    requires NoTerminator(a) && IsLineTerminator(c)
    ensures FirstTerminatorFrom(a + [c] + b, 0) == Some(|a|)
  {
    var t := a + [c] + b;
    assert forall i :: 0 <= i < |a| ==> t[i] == a[i];
    FirstTerminatorIs(t, 0, |a|);
  }

  /** A line without a terminator has no first terminator. */
  lemma FirstTerminatorNone(a: string)
    requires NoTerminator(a)
    ensures FirstTerminatorFrom(a, 0) == None
  {
  }

  /** The heading steps work line by line. */
  lemma HeadingsCons(a: string, c: char, b: string, marker: string, tag: string)
    requires NoTerminator(a) && IsLineTerminator(c)
    ensures Headings(a + [c] + b, marker, tag) == HeadingLine(a, marker, tag) + [c] + Headings(b, marker, tag)
  {
    var t := a + [c] + b;
    FirstTerminatorAfterLine(a, c, b);
    assert t[..|a|] == a && t[|a|] == c && t[|a| + 1..] == b;
  }

  /** On a single line, a heading step is `HeadingLine`. */
  lemma HeadingsOfLine(a: string, marker: string, tag: string)
    requires NoTerminator(a)
    ensures Headings(a, marker, tag) == HeadingLine(a, marker, tag)
  {
    FirstTerminatorNone(a);
  }

  lemma NoTerminatorAppend(x: string, y: string)
    ensures NoTerminator(x + y) <==> NoTerminator(x) && NoTerminator(y)
  {
    var t := x + y;
    assert forall i :: 0 <= i < |x| ==> t[i] == x[i];
    assert forall i :: 0 <= i < |y| ==> t[|x| + i] == y[i];
  }

  /** Rewriting a line adds no line terminator. */
  lemma HeadingLineNoTerminator(a: string, marker: string, tag: string)
    requires NoTerminator(a) && NoTerminator(tag)
    ensures NoTerminator(HeadingLine(a, marker, tag))
  {
    if StartsWith(a, marker) {
      var rest := a[|marker|..];
      assert forall i :: 0 <= i < |rest| ==> rest[i] == a[|marker| + i];
      NoTerminatorAppend("<", tag);
      NoTerminatorAppend("<" + tag, ">");
      NoTerminatorAppend("</", tag);
      NoTerminatorAppend("</" + tag, ">");
      NoTerminatorAppend(OpenTag(tag), rest);
      NoTerminatorAppend(OpenTag(tag) + rest, CloseTag(tag));
    }
  }

  /** Text in which the marker's first character does not occur is left alone. */
  lemma {:induction false} HeadingsIdentity(t: string, marker: string, tag: string)
    requires |marker| > 0 && marker[0] !in t
    ensures Headings(t, marker, tag) == t
    decreases |t|
  {
    match FirstTerminatorFrom(t, 0)
    case None =>
      assert !StartsWith(t, marker) by {
        if |marker| <= |t| { assert t[..|marker|][0] == t[0]; }
      }
    case Some(i) =>
      var line := t[..i];
      assert !StartsWith(line, marker) by {
        if |marker| <= |line| { assert line[..|marker|][0] == t[0]; }
      }
      assert marker[0] !in t[i + 1..];
      HeadingsIdentity(t[i + 1..], marker, tag);
      assert t == line + [t[i]] + t[i + 1..];
  }

  // ---------------------------------------------------------------------
  // The emphasis steps

  /** An occurrence of a delimiter without terminators does not reach past a
      terminator, so it is the same in a line and in the line followed by
      more text. */
  lemma OccursBeforeTerminator(a: string, c: char, b: string, d: string, j: nat)
    requires NoTerminator(d) && IsLineTerminator(c) && j <= |a|
    ensures OccursAt(a + [c] + b, d, j) <==> OccursAt(a, d, j)
  {
    var t := a + [c] + b;
    if j + |d| <= |a| {
      assert t[j..j + |d|] == a[j..j + |d|];
    } else if j + |d| <= |t| {
      assert t[j..j + |d|][|a| - j] == c;
    }
  }

  /** The closing delimiter is looked for within the line only. */
  lemma {:induction false} CloseAtBeforeTerminator(a: string, c: char, b: string, d: string, from: nat)
    requires NoTerminator(a) && NoTerminator(d) && IsLineTerminator(c) && from <= |a|
    ensures CloseAt(a + [c] + b, d, from) == CloseAt(a, d, from)
    decreases |a| - from
  {
    var t := a + [c] + b;
    OccursBeforeTerminator(a, c, b, d, from);
    if !OccursAt(a, d, from) && from < |a| {
      assert t[from] == a[from];
      CloseAtBeforeTerminator(a, c, b, d, from + 1);
    }
  }

  /** The emphasis steps work line by line: no match spans a line terminator. */
  lemma {:induction false} EmphasisCons(a: string, c: char, b: string, d: string, tag: string)
    requires |d| > 0 && NoTerminator(a) && NoTerminator(d) && IsLineTerminator(c)
    ensures Emphasis(a + [c] + b, d, tag) == Emphasis(a, d, tag) + [c] + Emphasis(b, d, tag)
    decreases |a|, 1
  {
    var t := a + [c] + b;
    if a == [] {
      assert t == [c] + b && t[1..] == b;
      if |d| <= |t| { assert t[..|d|][0] == c; }
    } else if OpensAt(a, d).Some? {
      EmphasisConsMatch(a, c, b, d, tag);
    } else {
      EmphasisConsSkip(a, c, b, d, tag);
    }
  }

  /** `EmphasisCons` when a match opens the line. */
  lemma {:induction false} EmphasisConsMatch(a: string, c: char, b: string, d: string, tag: string)
    requires |d| > 0 && NoTerminator(a) && NoTerminator(d) && IsLineTerminator(c)
    requires OpensAt(a, d).Some?
    ensures Emphasis(a + [c] + b, d, tag) == Emphasis(a, d, tag) + [c] + Emphasis(b, d, tag)
    decreases |a|, 0
  {
    var t := a + [c] + b;
    OpensBeforeTerminator(a, c, b, d);
    var q := OpensAt(a, d).value;
    var rest := a[q + |d|..];
    SliceOfPrefixLine(a, c, b, |d|, q);
    SuffixOfLine(a, c, b, q + |d|);
    NoTerminatorSuffix(a, q + |d|);
    EmphasisCons(rest, c, b, d, tag);
    EmphasisStep(t, d, tag, q);
    EmphasisStep(a, d, tag, q);
    var head := OpenTag(tag) + a[|d|..q] + CloseTag(tag);
    JoinMatch(Emphasis(t, d, tag), Emphasis(a, d, tag), head, Emphasis(rest + [c] + b, d, tag),
              Emphasis(rest, d, tag), [c], Emphasis(b, d, tag));
  }

  /** The result of a match is the tagged run followed by the rest, on the
      whole text and on its first line alike. */
  lemma JoinMatch(whole: string, line: string, head: string, after: string, lineRest: string, c: string, next: string)
    requires whole == head + after && line == head + lineRest && after == lineRest + c + next
    ensures whole == line + c + next
  {
  }

  /** Whether a match opens the text, and where it closes, is decided within the first line. */
  lemma OpensBeforeTerminator(a: string, c: char, b: string, d: string)
    requires |d| > 0 && NoTerminator(a) && NoTerminator(d) && IsLineTerminator(c)
    ensures OpensAt(a + [c] + b, d) == OpensAt(a, d)
  {
    OccursBeforeTerminator(a, c, b, d, 0);
    if OccursAt(a, d, 0) {
      CloseAtBeforeTerminator(a, c, b, d, |d|);
    }
  }

  lemma SliceOfPrefixLine(a: string, c: char, b: string, i: nat, j: nat)
    requires i <= j <= |a|
    ensures (a + [c] + b)[i..j] == a[i..j]
  {
  }

  lemma SuffixOfLine(a: string, c: char, b: string, i: nat)
    requires i <= |a|
    ensures (a + [c] + b)[i..] == a[i..] + [c] + b
  {
  }

  lemma NoTerminatorSuffix(a: string, i: nat)
    requires NoTerminator(a) && i <= |a|
    ensures NoTerminator(a[i..])
  {
    assert forall k :: 0 <= k < |a| - i ==> a[i..][k] == a[i + k];
  }

  /** A match at the start of the text. */
  lemma EmphasisStep(t: string, d: string, tag: string, q: nat)
    requires |d| > 0 && OpensAt(t, d) == Some(q)
    ensures Emphasis(t, d, tag) == OpenTag(tag) + t[|d|..q] + CloseTag(tag) + Emphasis(t[q + |d|..], d, tag)
  {
  }

  /** `EmphasisCons` when no match opens the line. */
  lemma {:induction false} EmphasisConsSkip(a: string, c: char, b: string, d: string, tag: string)
    requires |d| > 0 && NoTerminator(a) && NoTerminator(d) && IsLineTerminator(c) && a != []
    requires !(OpensAt(a, d).Some?)
    ensures Emphasis(a + [c] + b, d, tag) == Emphasis(a, d, tag) + [c] + Emphasis(b, d, tag)
    decreases |a|, 0
  {
    var t := a + [c] + b;
    OpensBeforeTerminator(a, c, b, d);
    SuffixOfLine(a, c, b, 1);
    NoTerminatorSuffix(a, 1);
    EmphasisCons(a[1..], c, b, d, tag);
    assert Emphasis(t, d, tag) == [a[0]] + Emphasis(t[1..], d, tag) by {
      assert t[0] == a[0];
    }
    assert Emphasis(a, d, tag) == [a[0]] + Emphasis(a[1..], d, tag);
  }

  /** Replacing emphasis in a line adds no line terminator. */
  lemma {:induction false} EmphasisNoTerminator(a: string, d: string, tag: string)
    requires |d| > 0 && NoTerminator(a) && NoTerminator(tag)
    ensures NoTerminator(Emphasis(a, d, tag))
    decreases |a|
  {
    if a != [] {
      if OpensAt(a, d).Some? {
        var q := OpensAt(a, d).value;
        var inner, rest := a[|d|..q], a[q + |d|..];
        assert forall i :: 0 <= i < |inner| ==> inner[i] == a[|d| + i];
        assert forall i :: 0 <= i < |rest| ==> rest[i] == a[q + |d| + i];
        EmphasisNoTerminator(rest, d, tag);
        NoTerminatorAppend("<", tag);
        NoTerminatorAppend("<" + tag, ">");
        NoTerminatorAppend("</", tag);
        NoTerminatorAppend("</" + tag, ">");
        NoTerminatorAppend(OpenTag(tag), inner);
        NoTerminatorAppend(OpenTag(tag) + inner, CloseTag(tag));
        NoTerminatorAppend(OpenTag(tag) + inner + CloseTag(tag), Emphasis(rest, d, tag));
      } else {
        EmphasisNoTerminator(a[1..], d, tag);
        NoTerminatorAppend([a[0]], Emphasis(a[1..], d, tag));
      }
    }
  }

  /** Text in which the delimiter's first character does not occur is left alone. */
  lemma {:induction false} EmphasisIdentity(t: string, d: string, tag: string)
    requires |d| > 0 && d[0] !in t
    ensures Emphasis(t, d, tag) == t
    decreases |t|
  {
    if t != [] {
      if |d| <= |t| { assert t[..|d|][0] == t[0]; }
      assert d[0] !in t[1..];
      EmphasisIdentity(t[1..], d, tag);
    }
  }

  /** The group is lazy: a match closes at the first delimiter after it opens,
      and the scan goes on after that delimiter. */
  lemma EmphasisFirstClose(x: string, y: string, d: string, tag: string)
    requires |d| > 0 && d[0] !in x && NoTerminator(x)
    ensures Emphasis(d + x + d + y, d, tag) == OpenTag(tag) + x + CloseTag(tag) + Emphasis(y, d, tag)
  {
    var t := d + x + d + y;
    var e := |d| + |x|;
    assert t[..|d|] == d;
    assert OccursAt(t, d, 0);
    assert t[e..e + |d|] == d;
    CloseAtRun(t, d, |d|, e);
    EmphasisStep(t, d, tag, e);
    assert t[|d|..e] == x;
    assert t[e + |d|..] == y;
  }

  /** Across characters that are neither the delimiter's first nor a
      terminator, the close is where the delimiter next occurs. */
  lemma {:induction false} CloseAtRun(t: string, d: string, from: nat, e: nat)
    requires |d| > 0 && from <= e && OccursAt(t, d, e)
    requires forall i :: from <= i < e ==> t[i] != d[0] && !IsLineTerminator(t[i])
    ensures CloseAt(t, d, from) == Some(e)
    decreases e - from
  {
    if from < e {
      if from + |d| <= |t| { assert t[from..from + |d|][0] == t[from]; }
      CloseAtRun(t, d, from + 1, e);
    }
  }

  // ---------------------------------------------------------------------
  // The whole chain

  /** Text without `#` and `*` only has its newlines replaced. */
  lemma FormatPlain(text: string)
    requires '#' !in text && '*' !in text
    ensures FormatRecipeResponse(text) == BreakLines(text)
  {
    HeadingsIdentity(text, "### ", "h3");
    HeadingsIdentity(text, "## ", "h2");
    EmphasisIdentity(text, "**", "strong");
    EmphasisIdentity(text, "*", "em");
  }

  /** The chain applied to one line, before the newline step. */
  function FormatLine(a: string): string
  {
    Emphases(HeaderLine(a))
  }

  /** The header replacements on one line. */
  function HeaderLine(a: string): string
  {
    HeadingLine(HeadingLine(a, "### ", "h3"), "## ", "h2")
  }

  /** On one line the heading steps are `HeadingLine`, and the result is still one line. */
  lemma FormatOfLine(a: string)
    requires NoTerminator(a)
    ensures FormatRecipeResponse(a) == BreakLines(FormatLine(a))
    ensures NoTerminator(FormatLine(a))
  {
    var a1 := HeadingLine(a, "### ", "h3");
    var a2 := HeadingLine(a1, "## ", "h2");
    var a3 := Emphasis(a2, "**", "strong");
    HeadingsOfLine(a, "### ", "h3");
    HeadingLineNoTerminator(a, "### ", "h3");
    HeadingsOfLine(a1, "## ", "h2");
    HeadingLineNoTerminator(a1, "## ", "h2");
    EmphasisNoTerminator(a2, "**", "strong");
    EmphasisNoTerminator(a3, "*", "em");
  }

  /** The chain works line by line: a line followed by a newline and more
      text is formatted on its own, and the newline becomes `<br>`. */
  lemma FormatLineByLine(a: string, b: string)
    requires NoTerminator(a)
    ensures FormatRecipeResponse(a + "\n" + b) == FormatRecipeResponse(a) + "<br>" + FormatRecipeResponse(b)
  {
    var m := FormatLine(a);
    assert a + "\n" + b == a + ['\n'] + b;
    MarkupLineByLine(a, '\n', b);
    FormatOfLine(a);
    BreakLinesAppend(m + "\n", Markup(b));
    BreakLinesAppend(m, "\n");
    assert BreakLines("\n") == "<br>";
  }

  /** Before the newline step the chain rewrites the first line on its own
      and keeps the terminator after it. */
  lemma MarkupLineByLine(a: string, c: char, b: string)
    requires NoTerminator(a) && IsLineTerminator(c)
    ensures Markup(a + [c] + b) == FormatLine(a) + [c] + Markup(b)
  {
    HeadersCons(a, c, b);
    EmphasesCons(HeaderLine(a), c, Headers(b));
  }

  /** The header replacements rewrite the first line on its own. */
  lemma HeadersCons(a: string, c: char, b: string)
    requires NoTerminator(a) && IsLineTerminator(c)
    ensures Headers(a + [c] + b) == HeaderLine(a) + [c] + Headers(b)
    ensures NoTerminator(HeaderLine(a))
  {
    var a1 := HeadingLine(a, "### ", "h3");
    HeadingsCons(a, c, b, "### ", "h3");
    HeadingLineNoTerminator(a, "### ", "h3");
    HeadingsCons(a1, c, Headings(b, "### ", "h3"), "## ", "h2");
    HeadingLineNoTerminator(a1, "## ", "h2");
  }

  /** The emphasis replacements rewrite the first line on its own. */
  lemma EmphasesCons(a: string, c: char, b: string)
    requires NoTerminator(a) && IsLineTerminator(c)
    ensures Emphases(a + [c] + b) == Emphases(a) + [c] + Emphases(b)
  {
    var a1 := Emphasis(a, "**", "strong");
    EmphasisCons(a, c, b, "**", "strong");
    EmphasisNoTerminator(a, "**", "strong");
    EmphasisCons(a1, c, Emphasis(b, "**", "strong"), "*", "em");
  }

  /** Each line formatted on its own. */
  function FormatEach(lines: seq<string>): (r: seq<string>)
    ensures |r| == |lines|
  {
    seq(|lines|, i requires 0 <= i < |lines| => FormatRecipeResponse(lines[i]))
  }

  /** Lines without terminators, joined by newlines, are formatted one by one
      and joined by `<br>`. */
  lemma {:induction false} FormatJoin(lines: seq<string>)
    requires forall i :: 0 <= i < |lines| ==> NoTerminator(lines[i])
    ensures FormatRecipeResponse(Join(lines, "\n")) == Join(FormatEach(lines), "<br>")
  {
    if |lines| == 1 {
    } else if |lines| > 1 {
      FormatLineByLine(lines[0], Join(lines[1..], "\n"));
      FormatJoin(lines[1..]);
      assert FormatEach(lines)[1..] == FormatEach(lines[1..]);
    }
  }

  /** The steps after the headers leave a line without `*` alone. */
  lemma EmphasisIdentityBoth(h: string)
    requires '*' !in h
    ensures Emphasis(Emphasis(h, "**", "strong"), "*", "em") == h
  {
    EmphasisIdentity(h, "**", "strong");
    EmphasisIdentity(h, "*", "em");
  }

  /** A line without a terminator is formatted as the line chain formats it. */
  lemma FormatOfPlainLine(a: string, h: string)
    requires NoTerminator(a) && FormatLine(a) == h
    ensures FormatRecipeResponse(a) == h
  {
    FormatOfLine(a);
    assert '\n' !in h by {
      assert IsLineTerminator('\n');
    }
    BreakLinesIdentity(h);
  }

  /** A header line: `### ` and `## ` lines become `h3` and `h2` headers. */
  lemma FormatH3(x: string)
    requires NoTerminator(x) && '*' !in x
    ensures FormatRecipeResponse("### " + x) == "<h3>" + x + "</h3>"
  {
    NoTerminatorAppend("### ", x);
    FormatLineH3(x);
    FormatOfPlainLine("### " + x, "<h3>" + x + "</h3>");
  }

  lemma FormatLineH3(x: string)
    requires '*' !in x
    ensures FormatLine("### " + x) == "<h3>" + x + "</h3>"
  {
    var a := "### " + x;
    var h := "<h3>" + x + "</h3>";
    assert a[..4] == "### " && a[4..] == x;
    assert HeadingLine(a, "### ", "h3") == h;
    assert !StartsWith(h, "## ") by {
      assert h[..3][0] == '<';
    }
    EmphasisIdentityBoth(h);
  }

  lemma FormatH2(x: string)
    requires NoTerminator(x) && '*' !in x
    ensures FormatRecipeResponse("## " + x) == "<h2>" + x + "</h2>"
  {
    NoTerminatorAppend("## ", x);
    FormatLineH2(x);
    FormatOfPlainLine("## " + x, "<h2>" + x + "</h2>");
  }

  lemma FormatLineH2(x: string)
    requires '*' !in x
    ensures FormatLine("## " + x) == "<h2>" + x + "</h2>"
  {
    var a := "## " + x;
    var h := "<h2>" + x + "</h2>";
    assert !StartsWith(a, "### ") by {
      if 4 <= |a| { assert a[..4][2] == ' '; }
    }
    assert a[..3] == "## " && a[3..] == x;
    assert HeadingLine(a, "## ", "h2") == h;
    EmphasisIdentityBoth(h);
  }

  /** A line opening with `**x**` has that run in bold; the rest of a line
      without `*` stays as it is. */
  lemma FormatBold(x: string, y: string)
    requires NoTerminator(x) && NoTerminator(y) && '*' !in x && '*' !in y
    ensures FormatRecipeResponse("**" + x + "**" + y) == "<strong>" + x + "</strong>" + y
  {
    NoTerminatorAppend("**", x);
    NoTerminatorAppend("**" + x, "**");
    NoTerminatorAppend("**" + x + "**", y);
    FormatLineBold(x, y);
    FormatOfPlainLine("**" + x + "**" + y, "<strong>" + x + "</strong>" + y);
  }

  lemma FormatLineBold(x: string, y: string)
    requires '*' !in x && '*' !in y && NoTerminator(x)
    ensures FormatLine("**" + x + "**" + y) == "<strong>" + x + "</strong>" + y
  {
    var a := "**" + x + "**" + y;
    var h := "<strong>" + x + "</strong>" + y;
    NotHeaderLine(a);
    BoldRun(x, y);
    assert '*' !in h by {
      assert '*' !in "<strong>" && '*' !in "</strong>";
    }
    EmphasisIdentity(h, "*", "em");
  }

  /** The bold step on a line opening with `**x**`. */
  lemma BoldRun(x: string, y: string)
    requires '*' !in x && '*' !in y && NoTerminator(x)
    ensures Emphasis("**" + x + "**" + y, "**", "strong") == "<strong>" + x + "</strong>" + y
  {
    EmphasisFirstClose(x, y, "**", "strong");
    EmphasisIdentity(y, "**", "strong");
    assert OpenTag("strong") == "<strong>" && CloseTag("strong") == "</strong>";
  }

  /** A line that opens with `*` is no header line. */
  lemma NotHeaderLine(a: string)
    requires a != [] && a[0] == '*'
    ensures HeaderLine(a) == a
  {
    assert !StartsWith(a, "### ") && !StartsWith(a, "## ") by {
      if 3 <= |a| { assert a[..3][0] == '*'; }
    }
  }

  /** Text in which the delimiter occurs nowhere is left alone. */
  lemma {:induction false} EmphasisNoOpen(t: string, d: string, tag: string)
    requires |d| > 0 && forall i :: 0 <= i < |t| ==> !OccursAt(t, d, i)
    ensures Emphasis(t, d, tag) == t
    decreases |t|
  {
    if t != [] {
      forall i | 0 <= i < |t| - 1
        ensures !OccursAt(t[1..], d, i)
      {
        OccursAtShift(t, d, i);
      }
      EmphasisNoOpen(t[1..], d, tag);
    }
  }

  lemma OccursAtShift(t: string, d: string, i: nat)
    requires t != []
    ensures OccursAt(t[1..], d, i) <==> OccursAt(t, d, i + 1)
  {
    if i + 1 + |d| <= |t| {
      assert t[1..][i..i + |d|] == t[i + 1..i + 1 + |d|];
    }
  }

  /** A line opening with `*x*`, x not empty, has that run in italics; the
      bold step finds no `**` in it. */
  lemma FormatItalic(x: string, y: string)
    requires |x| > 0 && NoTerminator(x) && NoTerminator(y) && '*' !in x && '*' !in y
    ensures FormatRecipeResponse("*" + x + "*" + y) == "<em>" + x + "</em>" + y
  {
    NoTerminatorAppend("*", x);
    NoTerminatorAppend("*" + x, "*");
    NoTerminatorAppend("*" + x + "*", y);
    FormatLineItalic(x, y);
    FormatOfPlainLine("*" + x + "*" + y, "<em>" + x + "</em>" + y);
  }

  lemma FormatLineItalic(x: string, y: string)
    requires |x| > 0 && '*' !in x && '*' !in y && NoTerminator(x)
    ensures FormatLine("*" + x + "*" + y) == "<em>" + x + "</em>" + y
  {
    var a := "*" + x + "*" + y;
    NotHeaderLine(a);
    NoDoubleStar(x, y);
    EmphasisNoOpen(a, "**", "strong");
    EmphasisFirstClose(x, y, "*", "em");
    EmphasisIdentity(y, "*", "em");
  }

  /** `*x*y` with x not empty and no `*` in x or y holds no `**`. */
  lemma NoDoubleStar(x: string, y: string)
    requires |x| > 0 && '*' !in x && '*' !in y
    ensures forall i :: 0 <= i < |"*" + x + "*" + y| ==> !OccursAt("*" + x + "*" + y, "**", i)
  {
    var a := "*" + x + "*" + y;
    forall i | 0 <= i < |a|
      ensures !OccursAt(a, "**", i)
    {
      if i + 2 <= |a| {
        assert a[i..i + 2][0] == a[i] && a[i..i + 2][1] == a[i + 1];
        if i == 0 {
          assert a[1] == x[0];
        } else if i <= |x| {
          assert a[i] == x[i - 1];
        } else if i == |x| + 1 {
          assert a[i + 1] == y[0];
        } else {
          assert a[i] == y[i - |x| - 2];
        }
      }
    }
  }

  /** A worked reply: the section header `### Ingredients`, the line
      `**2 cups** flour` and the line `*optional* sugar`. */
  lemma FormatRecipeExample(text: string)
    requires text == ("### " + "Ingredients") + "\n" + ("**" + "2 cups" + "**" + " flour")
                     + "\n" + ("*" + "optional" + "*" + " sugar")
    ensures FormatRecipeResponse(text)
         == ("<h3>" + "Ingredients" + "</h3>") + "<br>" + ("<strong>" + "2 cups" + "</strong>" + " flour")
            + "<br>" + ("<em>" + "optional" + "</em>" + " sugar")
  {
    ExampleLine("Ingredients");
    ExampleLine("2 cups");
    ExampleLine(" flour");
    ExampleLine("optional");
    ExampleLine(" sugar");
    HeaderBoldItalic("Ingredients", "2 cups", " flour", "optional", " sugar");
  }

  /** A header line, a line opening in bold and a line opening in italics,
      each made into HTML on its own and joined by `<br>`. */
  lemma HeaderBoldItalic(x: string, u: string, v: string, w: string, z: string)
    requires NoTerminator(x) && '*' !in x
    requires NoTerminator(u) && '*' !in u && NoTerminator(v) && '*' !in v
    requires |w| > 0 && NoTerminator(w) && '*' !in w && NoTerminator(z) && '*' !in z
    ensures FormatRecipeResponse(("### " + x) + "\n" + ("**" + u + "**" + v) + "\n" + ("*" + w + "*" + z))
         == ("<h3>" + x + "</h3>") + "<br>" + ("<strong>" + u + "</strong>" + v)
            + "<br>" + ("<em>" + w + "</em>" + z)
  {
    FormatH3(x);
    FormatBold(u, v);
    FormatItalic(w, z);
    NoTerminatorAppend("### ", x);
    NoTerminatorAppend("**", u);
    NoTerminatorAppend("**" + u, "**");
    NoTerminatorAppend("**" + u + "**", v);
    FormatThreeLines("### " + x, "**" + u + "**" + v, "*" + w + "*" + z);
  }

  /** Three lines are formatted one by one. */
  lemma FormatThreeLines(a: string, b: string, c: string)
    requires NoTerminator(a) && NoTerminator(b)
    ensures FormatRecipeResponse(a + "\n" + b + "\n" + c)
         == FormatRecipeResponse(a) + "<br>" + FormatRecipeResponse(b) + "<br>" + FormatRecipeResponse(c)
  {
    assert a + "\n" + b + "\n" + c == a + "\n" + (b + "\n" + c);
    FormatLineByLine(a, b + "\n" + c);
    FormatLineByLine(b, c);
  }

  /** A run of letters, digits and spaces holds no `*` and no terminator. */
  lemma ExampleLine(w: string)
    requires forall i :: 0 <= i < |w| ==> 'a' <= w[i] <= 'z' || 'A' <= w[i] <= 'Z' || '0' <= w[i] <= '9' || w[i] == ' '
    ensures NoTerminator(w) && '*' !in w
  {
  }
}
