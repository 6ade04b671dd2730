/** `parseSuggestions`: one pass over the lines of an AI reply that turns every
    block introduced by a `## ` heading into a recipe suggestion record.

    The declarative reading has two layers. `Blocks` cuts the lines into
    blocks: lines before the first heading are skipped, and each heading line
    together with the lines up to the next heading is one block. `Record` turns
    a block into a suggestion. `ParseSuggestions` is the script's loop, proved
    to compute `Records(Blocks(Lines(text)))`. */
module SuggestionParser {
  import opened Wrappers
  import opened Text

  datatype Suggestion = Suggestion(name: string, description: string, ingredients: string)

  /** A heading line and the lines after it up to the next heading. */
  datatype Block = Block(heading: string, body: seq<string>)

  const IngredientsLabel := "Ingredients:"

  /** `text.split('\n')`. */
  function Lines(text: string): seq<string>
  {
    Split(text, "\n")
  }

  /** `line.startsWith('## ')`, character by character. */
  predicate IsHeading(line: string)
  {
    |line| >= 3 && line[0] == '#' && line[1] == '#' && line[2] == ' '
  }

  /** `IsHeading` is `startsWith('## ')`. */
  lemma IsHeadingStartsWith(line: string)
    ensures IsHeading(line) <==> StartsWith(line, "## ")
  {
    if |line| >= 3 {
      assert line[..3] == "## " ==> line[0] == '#' && line[1] == '#' && line[2] == ' ';
    }
  }

  /** `line.includes('Ingredients:')`. */
  predicate IsIngredientsLine(line: string)
  {
    Contains(line, IngredientsLabel)
  }

  /** A line that may become the description: not an ingredients line and not blank. */
  predicate IsDescriptive(line: string)
  {
    !IsIngredientsLine(line) && Trim(line) != ""
  }

  /** `line.substring(3).trim()`. */
  function HeadingName(line: string): string
  {
    Trim(Substring(line, 3))
  }

  /** `line.split('Ingredients:')[1].trim()`: the text between the first
      occurrence of the label and the next one (or the end of the line). */
  function IngredientsField(line: string): string
    requires IsIngredientsLine(line)
  {
    Trim(Split(line, IngredientsLabel)[1])
  }

  /** The description of a block: the first descriptive line of its body, trimmed. */
  function Description(body: seq<string>): string
  {
    if body == [] then ""
    else if IsDescriptive(body[0]) then Trim(body[0])
    else Description(body[1..])
  }

  /** The ingredients of a block: the field of the last ingredients line of its body. */
  function Ingredients(body: seq<string>): string
  {
    if body == [] then ""
    else if IsIngredientsLine(body[|body| - 1]) then IngredientsField(body[|body| - 1])
    else Ingredients(body[..|body| - 1])
  }

  /** The suggestion a block gives. */
  function Record(b: Block): Suggestion
  {
    Suggestion(HeadingName(b.heading), Description(b.body), Ingredients(b.body))
  }

  /** The suggestions of a sequence of blocks, one per block. */
  function Records(bs: seq<Block>): (rs: seq<Suggestion>)
    ensures |rs| == |bs|
  {
    if bs == [] then [] else Records(bs[..|bs| - 1]) + [Record(bs[|bs| - 1])]
  }

  /** The number of lines before the first heading line. */
  function BodyLength(lines: seq<string>): (n: nat)
    ensures n <= |lines|
    ensures n == |lines| || IsHeading(lines[n])
  {
    if lines == [] || IsHeading(lines[0]) then 0 else 1 + BodyLength(lines[1..])
  }

  /** The blocks of a reply split into lines: lines before the first heading
      are skipped; a heading and the lines up to the next heading make one block. */
  function Blocks(lines: seq<string>): seq<Block>
    decreases |lines|
  {
    if lines == [] then []
    else if !IsHeading(lines[0]) then Blocks(lines[1..])
    else
      var n := BodyLength(lines[1..]);
      [Block(lines[0], lines[1..n + 1])] + Blocks(lines[n + 1..])
  }

  /** The suggestions `parseSuggestions` returns for a reply. */
  function Suggestions(text: string): seq<Suggestion>
  {
    Records(Blocks(Lines(text)))
  }

  /** What the loop does to the open record when it reads a line that is not a
      heading: an ingredients line replaces the ingredients, and the first
      descriptive line sets the description. */
  function Absorb(r: Suggestion, line: string): Suggestion
  {
    if IsIngredientsLine(line) then r.(ingredients := IngredientsField(line))
    else if Trim(line) != "" && r.description == "" then r.(description := Trim(line))
    else r
  }

  /** The records with a line that is not a heading absorbed into the last one. */
  function AbsorbLast(rs: seq<Suggestion>, line: string): seq<Suggestion>
  {
    if rs == [] then [] else rs[..|rs| - 1] + [Absorb(rs[|rs| - 1], line)]
  }

  /** The blocks with a line that is not a heading appended to the last body. */
  function ExtendLast(bs: seq<Block>, line: string): seq<Block>
  {
    if bs == [] then []
    else bs[..|bs| - 1] + [bs[|bs| - 1].(body := bs[|bs| - 1].body + [line])]
  }

  /** The open record, if any, as a sequence of at most one. */
  function Opened(current: Option<Suggestion>): seq<Suggestion>
  {
    if current.Some? then [current.value] else []
  }

  /** The script's loop: `suggestions` holds the completed records and
      `current` the one still open. */
  method ParseSuggestions(text: string) returns (suggestions: seq<Suggestion>)
    ensures suggestions == Suggestions(text)
  {
    var lines := Lines(text);
    suggestions := [];
    var current: Option<Suggestion> := None;
    for i := 0 to |lines|
      invariant Records(Blocks(lines[..i])) == suggestions + Opened(current)
      invariant current.None? ==> suggestions == []
    {
      var line := lines[i];
      PrefixSnoc(lines, i);
      if IsHeading(line) {
        ReadHeading(lines[..i], line);
        if current.Some? {
          suggestions := suggestions + [current.value];
        }
        current := Some(Suggestion(HeadingName(line), "", ""));
      } else if current.Some? {
        ReadBody(lines[..i], line, suggestions, current.value);
        if IsIngredientsLine(line) {
          current := Some(current.value.(ingredients := IngredientsField(line)));
        } else if Trim(line) != "" && current.value.description == "" {
          current := Some(current.value.(description := Trim(line)));
        }
      } else {
        ReadIgnored(lines[..i], line);
      }
    }
    assert lines[..|lines|] == lines;
    if current.Some? {
      suggestions := suggestions + [current.value];
    }
  }

  /** Reading a heading line completes the open record and opens an empty one. */
  lemma ReadHeading(lines: seq<string>, line: string)
    requires IsHeading(line)
    ensures Records(Blocks(lines + [line])) == Records(Blocks(lines)) + [Suggestion(HeadingName(line), "", "")]
  {
    BlocksSnocHeading(lines, line);
    RecordsSnoc(Blocks(lines), Block(line, []));
  }

  /** Reading any other line while a record is open is absorbing it into that record. */
  lemma ReadBody(lines: seq<string>, line: string, done: seq<Suggestion>, current: Suggestion)
    requires !IsHeading(line) && Records(Blocks(lines)) == done + [current]
    ensures Records(Blocks(lines + [line])) == done + [Absorb(current, line)]
  {
    BlocksSnocBody(lines, line);
    RecordsExtendLast(Blocks(lines), line);
    assert (done + [current])[..|done|] == done;
  }

  /** Lines read before the first heading are skipped. */
  lemma ReadIgnored(lines: seq<string>, line: string)
    requires !IsHeading(line) && Records(Blocks(lines)) == []
    ensures Records(Blocks(lines + [line])) == []
  {
    BlocksSnocBody(lines, line);
  }

  /** The prefix of one more element. */
  lemma PrefixSnoc<T>(s: seq<T>, i: nat)
    requires i < |s|
    ensures s[..i + 1] == s[..i] + [s[i]]
  {
  }

  /** One more block adds its record at the end. */
  lemma RecordsSnoc(bs: seq<Block>, b: Block)
    ensures Records(bs + [b]) == Records(bs) + [Record(b)]
  {
    assert (bs + [b])[..|bs|] == bs;
  }

  /** Extending the last body is absorbing the line into the last record. */
  lemma RecordsExtendLast(bs: seq<Block>, line: string)
    ensures Records(ExtendLast(bs, line)) == AbsorbLast(Records(bs), line)
  {
    if bs != [] {
      var n := |bs| - 1;
      var b := bs[n];
      var front := bs[..n];
      assert bs == front + [b];
      RecordsSnoc(front, b);
      RecordsSnoc(front, b.(body := b.body + [line]));
      RecordSnoc(b, line);
      assert (Records(front) + [Record(b)])[..n] == Records(front);
    }
  }

  /** Reading a line into a block body is absorbing it into the block's record. */
  lemma RecordSnoc(b: Block, line: string)
    ensures Record(b.(body := b.body + [line])) == Absorb(Record(b), line)
  {
    DescriptionSnoc(b.body, line);
    IngredientsSnoc(b.body, line);
  }

  /** A reply whose first line is a heading: its first block, then the blocks
      of the rest. */
  lemma BlocksStep(lines: seq<string>)
    requires lines != [] && IsHeading(lines[0])
    ensures Blocks(lines) == [Block(lines[0], lines[1..BodyLength(lines[1..]) + 1])]
                             + Blocks(lines[BodyLength(lines[1..]) + 1..])
  {
  }

  /** A heading line at the end of the reply opens a new block with an empty body. */
  lemma {:induction false} BlocksSnocHeading(lines: seq<string>, line: string)
    requires IsHeading(line)
    ensures Blocks(lines + [line]) == Blocks(lines) + [Block(line, [])]
    decreases |lines|
  {
    var all := lines + [line];
    if lines == [] {
      assert all == [line];
      BlocksStep(all);
      assert all[1..1] == [] && all[1..] == [];
    } else if !IsHeading(lines[0]) {
      SnocSuffix(lines, line, 1);
      BlocksSnocHeading(lines[1..], line);
    } else {
      var n := BodyLength(lines[1..]);
      var b := Block(lines[0], lines[1..n + 1]);
      SnocSuffix(lines, line, 1);
      BodyLengthSnoc(lines[1..], line);
      BlocksStep(all);
      BlocksStep(lines);
      SnocSlice(lines, line, 1, n + 1);
      SnocSuffix(lines, line, n + 1);
      BlocksSnocHeading(lines[n + 1..], line);
      ConsSnoc(b, Blocks(lines[n + 1..]), Block(line, []));
    }
  }

  /** A line that is not a heading, at the end of the reply, extends the last
      block, or is skipped if there is none. */
  lemma {:induction false} BlocksSnocBody(lines: seq<string>, line: string)
    requires !IsHeading(line)
    ensures Blocks(lines + [line]) == ExtendLast(Blocks(lines), line)
    decreases |lines|
  {
    var all := lines + [line];
    if lines == [] {
      assert all == [line] && all[1..] == [];
    } else if !IsHeading(lines[0]) {
      SnocSuffix(lines, line, 1);
      BlocksSnocBody(lines[1..], line);
    } else {
      BlocksSnocBodyAfterHeading(lines, line);
    }
  }

  /** `BlocksSnocBody` when the reply opens with a heading. */
  lemma {:induction false} BlocksSnocBodyAfterHeading(lines: seq<string>, line: string)
    requires !IsHeading(line) && lines != [] && IsHeading(lines[0])
    ensures Blocks(lines + [line]) == ExtendLast(Blocks(lines), line)
    decreases |lines|, 0
  {
    var n := BodyLength(lines[1..]);
    BodyLengthSnoc(lines[1..], line);
    SnocSuffix(lines, line, 1);
    BlocksStep(lines + [line]);
    BlocksStep(lines);
    if n + 1 == |lines| {
      BlocksSnocLastBody(lines, line);
    } else {
      var rest := lines[n + 1..];
      var b := Block(lines[0], lines[1..n + 1]);
      SnocSlice(lines, line, 1, n + 1);
      SnocSuffix(lines, line, n + 1);
      assert rest[0] == lines[1..][n];
      BlocksSnocBody(rest, line);
      BlocksStep(rest);
      ExtendLastCons(b, Blocks(rest), line);
    }
  }

  /** A line that is not a heading extends the body of a single open block. */
  lemma BlocksSnocLastBody(lines: seq<string>, line: string)
    requires !IsHeading(line) && lines != [] && IsHeading(lines[0])
    requires BodyLength(lines[1..]) + 1 == |lines|
    ensures Blocks(lines + [line]) == ExtendLast(Blocks(lines), line)
  {
    var body := lines[1..];
    assert NoHeading(body) by {
      BodyLengthNoHeading(body);
      assert body[..|lines| - 1] == body;
    }
    assert lines == [lines[0]] + body;
    LastBody(lines[0], body, line);
  }

  /** `BlocksSnocLastBody` on the parts of the block. */
  lemma LastBody(heading: string, body: seq<string>, line: string)
    requires IsHeading(heading) && NoHeading(body) && !IsHeading(line)
    ensures Blocks([heading] + body + [line]) == ExtendLast(Blocks([heading] + body), line)
  {
    var b := Block(heading, body);
    var c := Block(heading, body + [line]);
    assert NoHeading(c.body) by {
      forall i | 0 <= i < |c.body| ensures !IsHeading(c.body[i]) {
        if i < |body| { assert c.body[i] == body[i]; }
      }
    }
    OneBlock(b);
    OneBlock(c);
    assert [heading] + body + [line] == [heading] + c.body;
    assert ExtendLast([b], line) == [c];
  }

  /** A heading followed by lines that are not headings is one block. */
  lemma OneBlock(b: Block)
    requires IsHeading(b.heading) && NoHeading(b.body)
    ensures Blocks([b.heading] + b.body) == [b]
  {
    BlocksCons(b, []);
    assert [b.heading] + b.body + [] == [b.heading] + b.body;
  }

  /** Extending the last block of a sequence with a first block in front. */
  lemma ExtendLastCons(b: Block, bs: seq<Block>, line: string)
    requires bs != []
    ensures ExtendLast([b] + bs, line) == [b] + ExtendLast(bs, line)
  {
    assert ([b] + bs)[..|bs|] == [b] + bs[..|bs| - 1];
  }

  /** Appending a line to a body: a heading does not extend it, any other line does. */
  lemma {:induction false} BodyLengthSnoc(lines: seq<string>, line: string)
    ensures BodyLength(lines + [line])
         == if BodyLength(lines) == |lines| && !IsHeading(line) then |lines| + 1 else BodyLength(lines)
  {
    if lines == [] {
      assert [] + [line] == [line];
    } else if !IsHeading(lines[0]) {
      SnocSuffix(lines, line, 1);
      BodyLengthSnoc(lines[1..], line);
    }
  }

  /** Appending to a sequence leaves its slices unchanged. */
  lemma SnocSlice<T>(s: seq<T>, x: T, a: nat, b: nat)
    requires a <= b <= |s|
    ensures (s + [x])[a..b] == s[a..b]
  {
  }

  /** Appending to a sequence appends to its suffixes. */
  lemma SnocSuffix<T>(s: seq<T>, x: T, a: nat)
    requires a <= |s|
    ensures (s + [x])[a..] == s[a..] + [x]
  {
  }

  /** Concatenation is associative. */
  lemma ConsSnoc<T>(x: T, s: seq<T>, y: T)
    ensures [x] + (s + [y]) == ([x] + s) + [y]
  {
  }

  /** A descriptive line makes a non-empty description. */
  lemma {:induction false} DescriptionEmptyIff(body: seq<string>)
    ensures Description(body) == "" <==> forall i :: 0 <= i < |body| ==> !IsDescriptive(body[i])
  {
    if body != [] && !IsDescriptive(body[0]) {
      var rest := body[1..];
      DescriptionEmptyIff(rest);
      assert Description(body) == Description(rest);
      assert forall i :: 1 <= i < |body| ==> rest[i - 1] == body[i];
    }
  }

  /** Appending a line changes the description only if it is still empty and
      the new line is descriptive. */
  lemma {:induction false} DescriptionSnoc(body: seq<string>, line: string)
    ensures Description(body + [line])
         == if Description(body) == "" && IsDescriptive(line) then Trim(line) else Description(body)
  {
    if body == [] {
      assert [] + [line] == [line];
    } else {
      assert (body + [line])[1..] == body[1..] + [line];
      DescriptionSnoc(body[1..], line);
    }
  }

  /** Appending a line changes the ingredients exactly when it is an ingredients line. */
  lemma IngredientsSnoc(body: seq<string>, line: string)
    ensures Ingredients(body + [line])
         == if IsIngredientsLine(line) then IngredientsField(line) else Ingredients(body)
  {
    assert (body + [line])[..|body|] == body;
  }

  /** No line of `lines` is a heading. */
  predicate NoHeading(lines: seq<string>)
  {
    forall i :: 0 <= i < |lines| ==> !IsHeading(lines[i])
  }

  /** Every block starts with a heading line and has no heading line in its body. */
  predicate WellFormed(bs: seq<Block>)
  {
    forall k :: 0 <= k < |bs| ==> IsHeading(bs[k].heading) && NoHeading(bs[k].body)
  }

  /** The lines the blocks were cut from, heading and body after body. */
  function Flatten(bs: seq<Block>): seq<string>
  {
    if bs == [] then [] else [bs[0].heading] + bs[0].body + Flatten(bs[1..])
  }

  /** The number of heading lines. */
  function CountHeadings(lines: seq<string>): nat
  {
    if lines == [] then 0 else (if IsHeading(lines[0]) then 1 else 0) + CountHeadings(lines[1..])
  }

  /** The lines `BodyLength` counts are none of them headings. */
  lemma {:induction false} BodyLengthNoHeading(lines: seq<string>)
    ensures NoHeading(lines[..BodyLength(lines)])
  {
    if lines != [] && !IsHeading(lines[0]) {
      var rest := lines[1..];
      BodyLengthNoHeading(rest);
      var n := BodyLength(rest);
      var pre := lines[..n + 1];
      forall i | 0 <= i < n + 1 ensures !IsHeading(pre[i]) {
        if i > 0 { assert pre[i] == rest[..n][i - 1]; }
      }
    }
  }

  /** `BodyLength` is the length of the longest prefix without a heading. */
  lemma {:induction false} BodyLengthIs(lines: seq<string>, n: nat)
    requires n <= |lines| && NoHeading(lines[..n])
    requires n == |lines| || IsHeading(lines[n])
    ensures BodyLength(lines) == n
  {
    if n > 0 {
      assert lines[..n][0] == lines[0];
      var rest := lines[1..];
      var pre := rest[..n - 1];
      forall i | 0 <= i < n - 1 ensures !IsHeading(pre[i]) {
        assert pre[i] == lines[..n][i + 1];
      }
      BodyLengthIs(rest, n - 1);
    }
  }

  /** Cutting a reply into blocks gives well-formed blocks, and putting them
      back together gives the reply from its first heading on: no line is lost
      or moved, only the lines before the first heading are dropped. */
  lemma {:induction false} BlocksFlatten(lines: seq<string>)
    ensures WellFormed(Blocks(lines))
    ensures Flatten(Blocks(lines)) == lines[BodyLength(lines)..]
    decreases |lines|
  {
    if lines == [] {
    } else if !IsHeading(lines[0]) {
      BlocksFlatten(lines[1..]);
      assert lines[1..][BodyLength(lines[1..])..] == lines[BodyLength(lines)..];
    } else {
      BlocksFlattenAtHeading(lines);
    }
  }

  /** `BlocksFlatten` when the reply opens with a heading. */
  lemma {:induction false} BlocksFlattenAtHeading(lines: seq<string>)
    requires lines != [] && IsHeading(lines[0])
    ensures WellFormed(Blocks(lines))
    ensures Flatten(Blocks(lines)) == lines[BodyLength(lines)..]
    decreases |lines|, 0
  {
    var n := BodyLength(lines[1..]);
    var b := Block(lines[0], lines[1..n + 1]);
    var rest := lines[n + 1..];
    BodyLengthNoHeading(lines[1..]);
    assert lines[1..][..n] == b.body;
    assert rest == [] || IsHeading(rest[0]) by {
      if rest != [] { assert rest[0] == lines[1..][n]; }
    }
    CutAt(lines, n + 1);
    BlocksCons(b, rest);
    BlocksFlatten(rest);
    BodyLengthIs(rest, 0);
    WellFormedCons(b, Blocks(rest));
    FlattenCons(b, Blocks(rest));
  }

  /** A non-empty sequence is its head, a middle slice and the rest. */
  lemma CutAt<T>(s: seq<T>, m: nat)
    requires 1 <= m <= |s|
    ensures s == [s[0]] + s[1..m] + s[m..]
  {
  }

  /** A block in front of well-formed blocks. */
  lemma WellFormedCons(b: Block, bs: seq<Block>)
    ensures WellFormed([b] + bs) <==> IsHeading(b.heading) && NoHeading(b.body) && WellFormed(bs)
  {
    var all := [b] + bs;
    assert all[0] == b;
    assert forall k :: 0 <= k < |bs| ==> all[k + 1] == bs[k];
  }

  lemma FlattenCons(b: Block, bs: seq<Block>)
    ensures Flatten([b] + bs) == [b.heading] + b.body + Flatten(bs)
  {
    assert ([b] + bs)[1..] == bs;
  }

  /** A heading, a body without headings and then the end of the reply or
      another heading make one block, followed by the blocks of the rest. */
  lemma BlocksCons(b: Block, rest: seq<string>)
    requires IsHeading(b.heading) && NoHeading(b.body)
    requires rest == [] || IsHeading(rest[0])
    ensures Blocks([b.heading] + b.body + rest) == [b] + Blocks(rest)
  {
    var lines := [b.heading] + b.body + rest;
    var n := |b.body|;
    assert lines[1..] == b.body + rest;
    assert (b.body + rest)[..n] == b.body;
    assert n == |b.body + rest| || (b.body + rest)[n] == rest[0];
    BodyLengthIs(lines[1..], n);
    BlocksStep(lines);
    assert lines[1..n + 1] == b.body;
    assert lines[n + 1..] == rest;
  }

  /** Well-formed blocks are cut back from the lines they flatten to: `Blocks`
      and `Flatten` are inverse. */
  lemma {:induction false} FlattenBlocks(bs: seq<Block>)
    requires WellFormed(bs)
    ensures Blocks(Flatten(bs)) == bs
  {
    if bs != [] {
      var b := bs[0];
      var tail := bs[1..];
      assert bs == [b] + tail;
      WellFormedCons(b, tail);
      FlattenBlocks(tail);
      FlattenCons(b, tail);
      assert Flatten(tail) == [] || IsHeading(Flatten(tail)[0]) by {
        if tail != [] { FlattenCons(tail[0], tail[1..]); assert tail == [tail[0]] + tail[1..]; }
      }
      BlocksCons(b, Flatten(tail));
    }
  }

  /** Lines before the first heading do not count. */
  lemma LeadingLinesSkipped(lines: seq<string>)
    ensures Blocks(lines) == Blocks(lines[BodyLength(lines)..])
  {
    var n := BodyLength(lines);
    assert lines[n..][BodyLength(lines[n..])..] == lines[n..] by {
      BodyLengthIs(lines[n..], 0);
    }
    BlocksFlatten(lines);
    BlocksFlatten(lines[n..]);
    FlattenBlocks(Blocks(lines));
    FlattenBlocks(Blocks(lines[n..]));
  }

  /** The headings of well-formed blocks are the heading lines of their flattening. */
  lemma {:induction false} CountFlatten(bs: seq<Block>)
    requires WellFormed(bs)
    ensures CountHeadings(Flatten(bs)) == |bs|
  {
    if bs != [] {
      var tail := bs[1..];
      var b := bs[0];
      assert bs == [b] + tail;
      WellFormedCons(b, tail);
      CountFlatten(tail);
      CountAppend([b.heading], b.body + Flatten(tail));
      CountAppend(b.body, Flatten(tail));
      CountNone(b.body);
      assert Flatten(bs) == [b.heading] + (b.body + Flatten(tail));
    }
  }

  /** Counting headings distributes over concatenation. */
  lemma {:induction false} CountAppend(a: seq<string>, b: seq<string>)
    ensures CountHeadings(a + b) == CountHeadings(a) + CountHeadings(b)
  {
    if a == [] {
      assert a + b == b;
    } else {
      assert (a + b)[1..] == a[1..] + b;
      CountAppend(a[1..], b);
    }
  }

  /** Lines without a heading count none. */
  lemma {:induction false} CountNone(lines: seq<string>)
    requires NoHeading(lines)
    ensures CountHeadings(lines) == 0
  {
    if lines != [] {
      assert NoHeading(lines[1..]) by {
        forall i | 0 <= i < |lines| - 1 ensures !IsHeading(lines[1..][i]) {
          assert lines[1..][i] == lines[i + 1];
        }
      }
      CountNone(lines[1..]);
    }
  }

  /** One record per heading line of the reply. */
  lemma SuggestionCount(text: string)
    ensures |Suggestions(text)| == CountHeadings(Lines(text))
  {
    var lines := Lines(text);
    var n := BodyLength(lines);
    BlocksFlatten(lines);
    CountFlatten(Blocks(lines));
    BodyLengthNoHeading(lines);
    CountNone(lines[..n]);
    assert lines == lines[..n] + lines[n..];
    CountAppend(lines[..n], lines[n..]);
  }

  /** Lines count no heading exactly when none of them is one. */
  lemma {:induction false} CountZeroIff(lines: seq<string>)
    ensures CountHeadings(lines) == 0 <==> NoHeading(lines)
  {
    if lines != [] {
      CountZeroIff(lines[1..]);
      assert NoHeading(lines) <==> !IsHeading(lines[0]) && NoHeading(lines[1..]) by {
        assert forall i :: 0 < i < |lines| ==> lines[i] == lines[1..][i - 1];
      }
    }
  }

  /** The script shows the raw reply exactly when no line of it is a heading. */
  lemma SuggestionsEmptyIff(text: string)
    ensures Suggestions(text) == [] <==> NoHeading(Lines(text))
  {
    SuggestionCount(text);
    CountZeroIff(Lines(text));
  }

  /** Record `k` is the record of block `k`. */
  lemma {:induction false} RecordsIndex(bs: seq<Block>, k: nat)
    requires k < |bs|
    ensures Records(bs)[k] == Record(bs[k])
    decreases |bs|
  {
    var n := |bs| - 1;
    if k < n {
      RecordsIndex(bs[..n], k);
    }
  }

  /** Each suggestion is the record of a well-formed block of the reply. */
  lemma SuggestionOfBlock(text: string, k: nat)
    requires k < |Suggestions(text)|
    ensures k < |Blocks(Lines(text))|
    ensures IsHeading(Blocks(Lines(text))[k].heading) && NoHeading(Blocks(Lines(text))[k].body)
    ensures Suggestions(text)[k] == Record(Blocks(Lines(text))[k])
  {
    BlocksFlatten(Lines(text));
    RecordsIndex(Blocks(Lines(text)), k);
  }

  /** A `### ` section header is not a suggestion heading. */
  lemma SubheadingIsNotHeading(line: string)
    requires StartsWith(line, "###")
    ensures !IsHeading(line)
  {
    assert line[2] == line[..3][2];
  }

  /** The description is the first descriptive line of the body, trimmed. */
  lemma {:induction false} DescriptionIsFirst(body: seq<string>, j: nat)
    requires j < |body| && IsDescriptive(body[j])
    requires forall i :: 0 <= i < j ==> !IsDescriptive(body[i])
    ensures Description(body) == Trim(body[j])
  {
    if j > 0 {
      var rest := body[1..];
      assert !IsDescriptive(body[0]);
      assert forall i :: 0 <= i < j - 1 ==> rest[i] == body[i + 1];
      DescriptionIsFirst(rest, j - 1);
    }
  }

  /** The ingredients are the field of the last ingredients line of the body. */
  lemma {:induction false} IngredientsIsLast(body: seq<string>, j: nat)
    requires j < |body| && IsIngredientsLine(body[j])
    requires forall i :: j < i < |body| ==> !IsIngredientsLine(body[i])
    ensures Ingredients(body) == IngredientsField(body[j])
  {
    var n := |body| - 1;
    if j < n {
      var front := body[..n];
      assert forall i :: j < i < n ==> front[i] == body[i];
      IngredientsIsLast(front, j);
    }
  }

  /** A body without an ingredients line has empty ingredients. */
  lemma {:induction false} IngredientsEmptyWithoutLabel(body: seq<string>)
    requires forall i :: 0 <= i < |body| ==> !IsIngredientsLine(body[i])
    ensures Ingredients(body) == ""
  {
    if body != [] {
      var n := |body| - 1;
      var front := body[..n];
      assert forall i :: 0 <= i < n ==> front[i] == body[i];
      IngredientsEmptyWithoutLabel(front);
    }
  }

  /** The field of a line with the label once is the trimmed rest of the line. */
  lemma IngredientsFieldOnce(line: string, p: nat)
    requires IndexOf(line, IngredientsLabel) == Some(p)
    requires !Contains(line[p + |IngredientsLabel|..], IngredientsLabel)
    ensures IngredientsField(line) == Trim(line[p + |IngredientsLabel|..])
  {
    var rest := line[p + |IngredientsLabel|..];
    SplitUnfold(line, IngredientsLabel, p);
    SplitWithout(rest, IngredientsLabel);
  }

  /** With the label twice, the field stops at the second occurrence. */
  lemma IngredientsFieldTwice(line: string, p: nat, q: nat)
    requires IndexOf(line, IngredientsLabel) == Some(p)
    requires IndexOf(line[p + |IngredientsLabel|..], IngredientsLabel) == Some(q)
    ensures IngredientsField(line) == Trim(line[p + |IngredientsLabel|..][..q])
  {
    var rest := line[p + |IngredientsLabel|..];
    SplitUnfold(line, IngredientsLabel, p);
    SplitUnfold(rest, IngredientsLabel, q);
  }

  /** A reply of one heading line and one more line gives one suggestion. */
  lemma HeadingAndLine(h: string, l: string)
    requires '\n' !in h && '\n' !in l && IsHeading(h) && !IsHeading(l)
    ensures Suggestions(h + "\n" + l) == [Suggestion(HeadingName(h), Description([l]), Ingredients([l]))]
  {
    var text := h + "\n" + l;
    assert OccursAt(text, "\n", |h|) by {
      assert text[|h|..|h| + 1] == "\n";
    }
    FirstOccurrenceAt(text, "\n", 0, |h|);
    SplitUnfold(text, "\n", |h|);
    assert text[..|h|] == h && text[|h| + 1..] == l;
    CharNotContained(l, '\n');
    SplitWithout(l, "\n");
    var lines := [h, l];
    assert Lines(text) == lines;
    assert BodyLength(lines[1..]) == 1;
    assert lines[1..2] == [l] && lines[2..] == [];
    assert Blocks(lines) == [Block(h, [l])];
  }

  /** A line with the label once: its field is the trimmed text after the label. */
  lemma LabelledLine(d: string, r: string)
    requires IngredientsLabel[0] !in d && IngredientsLabel[0] !in r
    ensures IsIngredientsLine(d + IngredientsLabel + r)
    ensures IngredientsField(d + IngredientsLabel + r) == Trim(r)
  {
    var line := d + IngredientsLabel + r;
    var p := |d|;
    assert line[p..p + |IngredientsLabel|] == IngredientsLabel;
    assert forall j :: 0 <= j < p ==> line[j] == d[j];
    FirstOccurrenceAt(line, IngredientsLabel, 0, p);
    assert line[p + |IngredientsLabel|..] == r;
    FirstCharAbsent(r, IngredientsLabel);
    IngredientsFieldOnce(line, p);
  }

  /** The lines of a reply joined by newlines are the lines `split` gives back. */
  lemma LinesOfJoin(lines: seq<string>)
    requires |lines| >= 1 && forall k :: 0 <= k < |lines| ==> '\n' !in lines[k]
    ensures Lines(Join(lines, "\n")) == lines
  {
    JoinSplit(lines, '\n');
  }

  /** A heading, a description line and an ingredients line make one record. */
  lemma RecordOfCard(h: string, d: string, i: string)
    requires IsDescriptive(d) && IsIngredientsLine(i)
    ensures Record(Block(h, [d, i])) == Suggestion(HeadingName(h), Trim(d), IngredientsField(i))
  {
    assert [d, i][1..] == [i] && [d, i][..1] == [d];
  }

  /** The parts of one card of a reply as the initial prompt asks for it, on
      three lines: a name, a description that is neither blank, nor a
      heading, nor holds `I`, and ingredients without `I`. */
  predicate CardParts(name: string, description: string, ingredients: string)
  {
    '\n' !in name && '\n' !in description && '\n' !in ingredients
    && 'I' !in description && 'I' !in ingredients
    && description != [] && description[0] != '#' && !AllWhitespace(description)
  }

  /** The lines of such a card hold no newline; the first is a heading and
      the others are not. */
  lemma CardLines(name: string, description: string, ingredients: string)
    requires CardParts(name, description, ingredients)
    ensures '\n' !in "## " + name && '\n' !in IngredientsLabel + ingredients
    ensures IsHeading("## " + name) && !IsHeading(description) && !IsHeading(IngredientsLabel + ingredients)
    ensures HeadingName("## " + name) == Trim(name)
    ensures IsDescriptive(description)
    ensures IsIngredientsLine(IngredientsLabel + ingredients)
    ensures IngredientsField(IngredientsLabel + ingredients) == Trim(ingredients)
  {
    assert ("## " + name)[3..] == name;
    assert '\n' !in IngredientsLabel && IngredientsLabel[0] == 'I';
    assert (IngredientsLabel + ingredients)[0] == 'I';
    FirstCharAbsent(description, IngredientsLabel);
    TrimSpec(description);
    LabelledLine([], ingredients);
    assert [] + IngredientsLabel + ingredients == IngredientsLabel + ingredients;
  }

  /** A reply of two three-line cards gives two records, one per card. */
  lemma TwoCards(n1: string, d1: string, g1: string, n2: string, d2: string, g2: string)
    requires CardParts(n1, d1, g1) && CardParts(n2, d2, g2)
    ensures Suggestions(Join(["## " + n1, d1, IngredientsLabel + g1, "## " + n2, d2, IngredientsLabel + g2], "\n"))
         == [Suggestion(Trim(n1), Trim(d1), Trim(g1)), Suggestion(Trim(n2), Trim(d2), Trim(g2))]
  {
    var h1, i1, h2, i2 := "## " + n1, IngredientsLabel + g1, "## " + n2, IngredientsLabel + g2;
    var lines := [h1, d1, i1, h2, d2, i2];
    CardLines(n1, d1, g1);
    CardLines(n2, d2, g2);
    LinesOfJoin(lines);
    var b1, b2 := Block(h1, [d1, i1]), Block(h2, [d2, i2]);
    BlocksOfTwo(b1, b2);
    assert lines == [b1.heading] + b1.body + [b2.heading] + b2.body;
    RecordsOfTwo(b1, b2);
    RecordOfCard(h1, d1, i1);
    RecordOfCard(h2, d2, i2);
  }

  /** Two well-formed blocks are cut back out of their lines. */
  lemma BlocksOfTwo(b1: Block, b2: Block)
    requires IsHeading(b1.heading) && NoHeading(b1.body)
    requires IsHeading(b2.heading) && NoHeading(b2.body)
    ensures Blocks([b1.heading] + b1.body + [b2.heading] + b2.body) == [b1, b2]
  {
    var rest := [b2.heading] + b2.body;
    BlocksCons(b2, []);
    assert rest + [] == rest;
    BlocksCons(b1, rest);
    assert [b1.heading] + b1.body + [b2.heading] + b2.body == [b1.heading] + b1.body + rest;
  }

  lemma RecordsOfTwo(b1: Block, b2: Block)
    ensures Records([b1, b2]) == [Record(b1), Record(b2)]
  {
    assert [b1, b2][..1] == [b1];
    assert [b1][..0] == [];
  }
}
