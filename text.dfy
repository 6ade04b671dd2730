/** The string operations the script relies on: `trim`, `substring`,
    `startsWith`, `includes` and `split`; with them, the first occurrence of
    a pattern, on which `includes` and `split` rest, and joining, the inverse
    of `split`. */
module Text {
  import opened Wrappers

  /** The characters `String.prototype.trim` removes in this model: the ASCII
      blanks, the no-break space, the byte-order mark and the line terminators. */
  predicate IsWhitespace(c: char)
  {
    c == ' ' || c == '\t' || c == '\n' || c == '\r' || c == '\U{000B}' || c == '\U{000C}'
    || c == '\U{00A0}' || c == '\U{FEFF}' || c == '\U{2028}' || c == '\U{2029}'
  }

  predicate AllWhitespace(s: string)
  {
    forall i :: 0 <= i < |s| ==> IsWhitespace(s[i])
  }

  /** `s` without its leading whitespace. */
  function TrimStart(s: string): string
  {
    if s != [] && IsWhitespace(s[0]) then TrimStart(s[1..]) else s
  }

  /** `s` without its trailing whitespace. */
  function TrimEnd(s: string): string
  {
    if s != [] && IsWhitespace(s[|s| - 1]) then TrimEnd(s[..|s| - 1]) else s
  }

  /** `s.trim()`. */
  function Trim(s: string): string
  {
    TrimEnd(TrimStart(s))
  }

  /** `TrimStart` removes a whitespace prefix and stops at the first other character. */
  lemma {:induction false} TrimStartSpec(s: string)
    ensures |TrimStart(s)| <= |s| && TrimStart(s) == s[|s| - |TrimStart(s)|..]
    ensures AllWhitespace(s[..|s| - |TrimStart(s)|])
    ensures TrimStart(s) == [] || !IsWhitespace(TrimStart(s)[0])
  {
    if s != [] && IsWhitespace(s[0]) {
      var t := s[1..];
      TrimStartSpec(t);
      var r := TrimStart(t);
      assert s[|s| - |r|..] == t[|t| - |r|..];
      var cut, cutT := s[..|s| - |r|], t[..|t| - |r|];
      assert forall i :: 1 <= i < |cut| ==> cut[i] == cutT[i - 1];
    }
  }

  /** `TrimEnd` removes a whitespace suffix and stops at the last other character. */
  lemma {:induction false} TrimEndSpec(s: string)
    ensures |TrimEnd(s)| <= |s| && TrimEnd(s) == s[..|TrimEnd(s)|]
    ensures AllWhitespace(s[|TrimEnd(s)|..])
    ensures TrimEnd(s) == [] || !IsWhitespace(TrimEnd(s)[|TrimEnd(s)| - 1])
  {
    if s != [] && IsWhitespace(s[|s| - 1]) {
      var t := s[..|s| - 1];
      TrimEndSpec(t);
      var r := TrimEnd(t);
      assert s[..|r|] == t[..|r|];
      assert forall i :: 0 <= i < |t| - |r| ==> s[|r|..][i] == t[|r|..][i];
    }
  }

  /** `s.trim()` is a slice of `s` that neither starts nor ends with
      whitespace, and is empty exactly when `s` is all whitespace. */
  lemma TrimSpec(s: string)
    ensures |Trim(s)| <= |s|
    ensures exists a: nat, b: nat :: a <= b <= |s| && Trim(s) == s[a..b]
                                   && AllWhitespace(s[..a]) && AllWhitespace(s[b..])
    ensures Trim(s) == [] || (!IsWhitespace(Trim(s)[0]) && !IsWhitespace(Trim(s)[|Trim(s)| - 1]))
    ensures Trim(s) == [] <==> AllWhitespace(s)
  {
    var t := TrimStart(s);
    TrimStartSpec(s);
    TrimEndSpec(t);
    var r := TrimEnd(t);
    if r != [] {
      assert r[0] == t[0];
    }
    if t != [] {
      assert t[0] == s[|s| - |t|];
    }
    if r == [] {
      WhitespaceHalves(s, |s| - |t|);
    }
    var a, b := |s| - |t|, |s| - |t| + |r|;
    assert r == s[a..b];
    assert s[b..] == t[|r|..];
  }

  /** What `trim` keeps is determined by the whitespace around it: cutting
      whitespace off both ends of `s` so that what remains has no whitespace
      at either end gives exactly `Trim(s)`. */
  lemma TrimKeepsCore(s: string, a: nat, b: nat)
    requires a <= b <= |s|
    requires AllWhitespace(s[..a]) && AllWhitespace(s[b..])
    requires a == b || (!IsWhitespace(s[a]) && !IsWhitespace(s[b - 1]))
    ensures Trim(s) == s[a..b]
  {
    if a == b {
      WhitespaceHalves(s, a);
      TrimSpec(s);
    } else {
      TrimStartSkips(s, a);
      var t := s[a..];
      assert t[b - a..] == s[b..];
      TrimEndSkips(t, b - a);
      assert t[..b - a] == s[a..b];
    }
  }

  lemma WhitespaceHalves(s: string, a: nat)
    requires a <= |s| && AllWhitespace(s[..a]) && AllWhitespace(s[a..])
    ensures AllWhitespace(s)
  {
    forall i | 0 <= i < |s| ensures IsWhitespace(s[i]) {
      if i < a { assert s[..a][i] == s[i]; } else { assert s[a..][i - a] == s[i]; }
    }
  }

  lemma {:induction false} TrimStartSkips(s: string, a: nat)
    requires a <= |s| && AllWhitespace(s[..a])
    requires a == |s| || !IsWhitespace(s[a])
    ensures TrimStart(s) == s[a..]
  {
    if a > 0 {
      assert IsWhitespace(s[..a][0]);
      assert s[1..][..a - 1] == s[1..a];
      assert forall i :: 0 <= i < a - 1 ==> s[1..a][i] == s[..a][i + 1];
      TrimStartSkips(s[1..], a - 1);
      assert s[1..][a - 1..] == s[a..];
    }
  }

  lemma {:induction false} TrimEndSkips(s: string, b: nat)
    requires b <= |s| && AllWhitespace(s[b..])
    requires b == 0 || !IsWhitespace(s[b - 1])
    ensures TrimEnd(s) == s[..b]
    decreases |s|
  {
    if b < |s| {
      var n := |s|;
      assert IsWhitespace(s[b..][n - 1 - b]);
      var u := s[..n - 1];
      assert forall i :: 0 <= i < n - 1 - b ==> u[b..][i] == s[b..][i];
      TrimEndSkips(u, b);
      assert u[..b] == s[..b];
    }
  }

  /** Trimming twice is trimming once. */
  lemma TrimIdempotent(s: string)
    ensures Trim(Trim(s)) == Trim(s)
  {
    var r := Trim(s);
    TrimSpec(s);
    if r != [] {
      assert TrimStart(r) == r;
      assert TrimEnd(r) == r;
    }
  }

  /** Whitespace around a core without whitespace at its ends is what `trim` removes. */
  lemma TrimPadded(a: string, x: string, b: string)
    requires AllWhitespace(a) && AllWhitespace(b)
    requires x != [] && !IsWhitespace(x[0]) && !IsWhitespace(x[|x| - 1])
    ensures Trim(a + x + b) == x
  {
    var s := a + x + b;
    assert s[..|a|] == a && s[|a| + |x|..] == b && s[|a|..|a| + |x|] == x;
    TrimKeepsCore(s, |a|, |a| + |x|);
  }

  /** A leading space makes no difference to `trim`. */
  lemma TrimSpaceFirst(x: string)
    ensures Trim(" " + x) == Trim(x)
  {
    assert (" " + x)[1..] == x;
  }

  /** `s.substring(from)`: the characters from index `from` on, or nothing
      when `from` is past the end. */
  function Substring(s: string, from: nat): (r: string)
    ensures from <= |s| ==> r == s[from..]
    ensures from >= |s| ==> r == []
  {
    if from <= |s| then s[from..] else []
  }

  /** `s.startsWith(p)`. */
  predicate StartsWith(s: string, p: string)
  {
    |p| <= |s| && s[..|p|] == p
  }

  /** `p` occurs in `s` starting at index `i`. */
  predicate OccursAt(s: string, p: string, i: nat)
  {
    i + |p| <= |s| && s[i..i + |p|] == p
  }

  /** The first occurrence of `p` in `s` at or after `from`, as `indexOf` finds it. */
  function FindFrom(s: string, p: string, from: nat): (r: Option<nat>)
    requires from <= |s|
    ensures r.Some? ==> from <= r.value && OccursAt(s, p, r.value)
    ensures r.Some? ==> forall j :: from <= j < r.value ==> !OccursAt(s, p, j)
    ensures r.None? ==> forall j :: from <= j <= |s| ==> !OccursAt(s, p, j)
    decreases |s| - from
  {
    if from + |p| > |s| then None
    else if OccursAt(s, p, from) then Some(from)
    else FindFrom(s, p, from + 1)
  }

  /** `s.indexOf(p)`, with `None` for -1. */
  function IndexOf(s: string, p: string): Option<nat>
  {
    FindFrom(s, p, 0)
  }

  /** `s.includes(p)`. */
  predicate Contains(s: string, p: string)
  {
    IndexOf(s, p).Some?
  }

  /** `includes` holds exactly when some occurrence exists. */
  lemma ContainsIff(s: string, p: string)
    ensures Contains(s, p) <==> exists i :: 0 <= i <= |s| && OccursAt(s, p, i)
  {
  }

  /** A string that lacks the first character of `p` does not contain `p`. */
  lemma FirstCharAbsent(s: string, p: string)
    requires |p| > 0 && p[0] !in s
    ensures !Contains(s, p)
  {
    forall j | 0 <= j <= |s|
      ensures !OccursAt(s, p, j)
    {
      if j + |p| <= |s| { assert s[j..j + |p|][0] == s[j]; }
    }
  }

  /** An occurrence of `p` with no earlier character equal to `p`'s first is
      the first occurrence. */
  lemma {:induction false} FirstOccurrenceAt(s: string, p: string, from: nat, i: nat)
    requires |p| > 0 && from <= i && OccursAt(s, p, i)
    requires forall j :: from <= j < i ==> s[j] != p[0]
    ensures FindFrom(s, p, from) == Some(i)
    decreases i - from
  {
    if from < i {
      if from + |p| <= |s| { assert s[from..from + |p|][0] == s[from]; }
      FirstOccurrenceAt(s, p, from + 1, i);
    }
  }

  /** `s.split(sep)` for a non-empty separator. */
  function Split(s: string, sep: string): (parts: seq<string>)
    requires |sep| > 0
    ensures |parts| >= 1
    decreases |s|
  {
    match IndexOf(s, sep)
    case None => [s]
    case Some(i) => [s[..i]] + Split(s[i + |sep|..], sep)
  }

  /** A split gives one piece exactly when the separator does not occur. */
  lemma SplitOneIff(s: string, sep: string)
    requires |sep| > 0
    ensures |Split(s, sep)| == 1 <==> !Contains(s, sep)
  {
    match IndexOf(s, sep)
    case None =>
    case Some(i) => assert |Split(s, sep)| == 1 + |Split(s[i + |sep|..], sep)|;
  }

  /** One step of `Split`, at the occurrence `IndexOf` finds. */
  lemma SplitUnfold(s: string, sep: string, i: nat)
    requires |sep| > 0 && IndexOf(s, sep) == Some(i)
    ensures Split(s, sep) == [s[..i]] + Split(s[i + |sep|..], sep)
  {
  }

  /** An occurrence with none before it is the one `indexOf` returns. */
  lemma IndexOfFirst(s: string, p: string, i: nat)
    requires OccursAt(s, p, i) && forall j :: 0 <= j < i ==> !OccursAt(s, p, j)
    ensures IndexOf(s, p) == Some(i)
  {
  }

  /** Splitting cuts at the first occurrence of the separator: the first piece
      is the text before it, and the rest is the split of the text after it. */
  lemma SplitAtFirst(s: string, sep: string, i: nat)
    requires |sep| > 0 && OccursAt(s, sep, i)
    requires forall j :: 0 <= j < i ==> !OccursAt(s, sep, j)
    ensures Split(s, sep) == [s[..i]] + Split(s[i + |sep|..], sep)
  {
    IndexOfFirst(s, sep, i);
    SplitUnfold(s, sep, i);
  }

  /** A string without the separator splits into itself alone. */
  lemma SplitWithout(s: string, sep: string)
    requires |sep| > 0 && !Contains(s, sep)
    ensures Split(s, sep) == [s]
  {
  }

  /** No piece of a split contains the separator. */
  lemma {:induction false} SplitPiecesLackSeparator(s: string, sep: string)
    requires |sep| > 0
    ensures forall k :: 0 <= k < |Split(s, sep)| ==> !Contains(Split(s, sep)[k], sep)
    decreases |s|
  {
    match IndexOf(s, sep)
    case None =>
    case Some(i) =>
      NoEarlierOccurrence(s, sep, i);
      SplitPiecesLackSeparator(s[i + |sep|..], sep);
  }

  /** A prefix that ends before the first occurrence of `p` does not contain `p`. */
  lemma NoEarlierOccurrence(s: string, p: string, i: nat)
    requires |p| > 0 && IndexOf(s, p) == Some(i)
    ensures !Contains(s[..i], p)
  {
    var t := s[..i];
    if Contains(t, p) {
      var j := IndexOf(t, p).value;
      assert j < i;
      assert t[j..j + |p|] == s[j..j + |p|];
      assert OccursAt(s, p, j);
      assert false;
    }
  }

  /** The inverse of `split`: `parts.join(sep)`. */
  function Join(parts: seq<string>, sep: string): string
  {
    if |parts| == 0 then []
    else if |parts| == 1 then parts[0]
    else parts[0] + sep + Join(parts[1..], sep)
  }

  /** Joining the pieces of a split with the separator gives back the string. */
  lemma {:induction false} SplitJoin(s: string, sep: string)
    requires |sep| > 0
    ensures Join(Split(s, sep), sep) == s
    decreases |s|
  {
    match IndexOf(s, sep)
    case None =>
    case Some(i) =>
      var rest := s[i + |sep|..];
      SplitJoin(rest, sep);
      SplitUnfold(s, sep, i);
      JoinCons(s[..i], Split(rest, sep), sep);
      CutAround(s, sep, i);
  }

  /** A string is the text before an occurrence, the occurrence, and the text after it. */
  lemma CutAround(s: string, p: string, i: nat)
    requires OccursAt(s, p, i)
    ensures s == s[..i] + p + s[i + |p|..]
  {
    assert s == s[..i] + s[i..i + |p|] + s[i + |p|..];
  }

  /** Joining a piece in front of at least one other. */
  lemma JoinCons(x: string, parts: seq<string>, sep: string)
    requires |parts| >= 1
    ensures Join([x] + parts, sep) == x + sep + Join(parts, sep)
  {
    assert ([x] + parts)[1..] == parts;
  }

  /** A string that lacks a character does not contain it as a substring. */
  lemma CharNotContained(s: string, c: char)
    requires c !in s
    ensures !Contains(s, [c])
  {
    forall i | 0 <= i <= |s|
      ensures !OccursAt(s, [c], i)
    {
      if i + 1 <= |s| { assert s[i..i + 1] == [s[i]]; }
    }
    ContainsIff(s, [c]);
  }

  /** A string that does not contain a character as a substring lacks it. */
  lemma CharNotContainedIff(s: string, c: char)
    ensures !Contains(s, [c]) <==> c !in s
  {
    if c !in s {
      CharNotContained(s, c);
    } else {
      var i :| 0 <= i < |s| && s[i] == c;
      assert s[i..i + 1] == [c];
      assert OccursAt(s, [c], i);
      ContainsIff(s, [c]);
    }
  }

  /** Splitting on a character that occurs in none of the pieces gives back the
      pieces that were joined. */
  lemma {:induction false} JoinSplit(parts: seq<string>, c: char)
    requires |parts| >= 1
    requires forall k :: 0 <= k < |parts| ==> c !in parts[k]
    ensures Split(Join(parts, [c]), [c]) == parts
  {
    var head := parts[0];
    if |parts| == 1 {
      CharNotContained(head, c);
    } else {
      var rest := Join(parts[1..], [c]);
      var s := head + [c] + rest;
      assert OccursAt(s, [c], |head|);
      forall j | 0 <= j < |head|
        ensures !OccursAt(s, [c], j)
      {
        assert s[j] == head[j];
      }
      assert IndexOf(s, [c]) == Some(|head|);
      assert s[..|head|] == head;
      assert s[|head| + 1..] == rest;
      JoinSplit(parts[1..], c);
      assert Split(s, [c]) == [head] + parts[1..];
    }
  }
}
