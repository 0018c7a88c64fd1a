/**
 * The JavaScript string builtins the application relies on: the whitespace
 * class `\s` (also what `String.prototype.trim` removes), `trim`,
 * `startsWith`, `split(/\s+/)` and `Array.prototype.join`.
 */
module JsString {

  /** ECMAScript WhiteSpace and LineTerminator code points: the set `\s` matches. */
  predicate IsSpace(c: char)
  {
    || c == ' ' || c == '\t' || c == '\n' || c == '\U{000B}' || c == '\U{000C}' || c == '\r'
    || c == '\U{00A0}' || c == '\U{1680}' || ('\U{2000}' <= c <= '\U{200A}')
    || c == '\U{2028}' || c == '\U{2029}' || c == '\U{202F}' || c == '\U{205F}'
    || c == '\U{3000}' || c == '\U{FEFF}'
  }

  /** ECMAScript LineTerminator code points: the characters a regular expression `.` does not match. */
  predicate IsLineTerminator(c: char)
  {
    c == '\n' || c == '\r' || c == '\U{2028}' || c == '\U{2029}'
  }

  predicate AllSpace(s: string)
  {
    forall i :: 0 <= i < |s| ==> IsSpace(s[i])
  }

  predicate NoSpace(s: string)
  {
    forall i :: 0 <= i < |s| ==> !IsSpace(s[i])
  }

  /** `s.startsWith(prefix)` */
  predicate StartsWith(s: string, prefix: string)
  {
    |prefix| <= |s| && s[..|prefix|] == prefix
  }

  /** `s.endsWith(suffix)` */
  predicate EndsWith(s: string, suffix: string)
  {
    |suffix| <= |s| && s[|s| - |suffix|..] == suffix
  }

  /** The prefix of a concatenation. */
  lemma ConcatStartsWith(a: string, b: string)
    ensures StartsWith(a + b, a)
  {
    assert (a + b)[..|a|] == a;
  }

  /** A text that starts with `p + q` starts with `p`. */
  lemma StartsWithLonger(s: string, p: string, q: string)
    ensures StartsWith(s, p + q) ==> StartsWith(s, p)
  {
    if StartsWith(s, p + q) {
      assert s[..|p|] == (p + q)[..|p|];
    }
  }

  /** A suffix of `b` is a suffix of `a + b`. */
  lemma EndsWithExtended(a: string, b: string, suffix: string)
    ensures EndsWith(b, suffix) ==> EndsWith(a + b, suffix)
  {
    if EndsWith(b, suffix) {
      assert (a + b)[|a + b| - |suffix|..] == b[|b| - |suffix|..];
    }
  }

  /** A text that ends with `suffix` holds its first character at the matching place. */
  lemma EndsWithFirst(s: string, suffix: string)
    ensures EndsWith(s, suffix) && suffix != [] ==> s[|s| - |suffix|] == suffix[0]
  {
    if EndsWith(s, suffix) && suffix != [] {
      assert s[|s| - |suffix|..][0] == suffix[0];
    }
  }

  // ---------------------------------------------------------------- trim

  /** The text after its leading run of whitespace, `s.trimStart()`. */
  function TrimStart(s: string): (r: string)
    ensures |r| <= |s|
    ensures r == [] || !IsSpace(r[0])
  {
    if s != [] && IsSpace(s[0]) then TrimStart(s[1..]) else s
  }

  /** The first position from `i` on that does not hold whitespace, or `|s|` when there is none. */
  function SkipSpaces(s: string, i: nat): (j: nat)
    requires i <= |s|
    ensures i <= j <= |s|
    ensures forall k :: i <= k < j ==> IsSpace(s[k])
    ensures j == |s| || !IsSpace(s[j])
    decreases |s| - i
  {
    if i == |s| || !IsSpace(s[i]) then i else SkipSpaces(s, i + 1)
  }

  /** Scanning back from `j`: the position just after the last non-whitespace character before `j`, or 0. */
  function SkipSpacesBack(s: string, j: nat): (i: nat)
    requires j <= |s|
    ensures i <= j
    ensures forall k :: i <= k < j ==> IsSpace(s[k])
    ensures i == 0 || !IsSpace(s[i - 1])
  {
    if j == 0 || !IsSpace(s[j - 1]) then j else SkipSpacesBack(s, j - 1)
  }

  /**
   * `s.trim()`: `s` without its leading and its trailing run of whitespace.
   * It yields the empty string exactly when `s` is made of whitespace only;
   * otherwise it starts and ends with a non-space.
   */
  function Trim(s: string): (r: string)
    ensures |r| <= |s|
    ensures r == [] || (!IsSpace(r[0]) && !IsSpace(r[|r| - 1]))
    ensures r == [] <==> AllSpace(s)
  {
    var lead := SkipSpaces(s, 0);
    var end := SkipSpacesBack(s, |s|);
    if lead == |s| then [] else s[lead..end]
  }

  /** Every character of `s` from position `i` up to `j` is whitespace. */
  predicate SpacesBetween(s: string, i: nat, j: nat)
    requires i <= j <= |s|
  {
    forall k :: i <= k < j ==> IsSpace(s[k])
  }

  /** Trim removes exactly a run of leading and a run of trailing whitespace, and keeps what lies between. */
  lemma TrimKeepsCore(s: string)
    ensures var r := Trim(s);
            exists lead :: && 0 <= lead <= |s| - |r| && r == s[lead..lead + |r|]
                           && SpacesBetween(s, 0, lead) && SpacesBetween(s, lead + |r|, |s|)
  {
    var r := Trim(s);
    var lead := SkipSpaces(s, 0);
    if lead == |s| {
      assert r == s[0..0] && SpacesBetween(s, 0, 0) && SpacesBetween(s, 0, |s|);
    } else {
      assert r == s[lead..lead + |r|] && SpacesBetween(s, 0, lead) && SpacesBetween(s, lead + |r|, |s|);
    }
  }

  // ------------------------------------------------------- split(/\s+/)

  /**
   * `s.split(/\s+/)`: the pieces between maximal runs of whitespace. A leading
   * run gives an empty first piece, a trailing run an empty last piece, and
   * the empty string splits into one empty piece.
   */
  function SplitOnWhitespace(s: string): (r: seq<string>)
    ensures |r| >= 1
    decreases |s|
  {
    if s == [] then [""]
    else if IsSpace(s[0]) then [""] + SplitOnWhitespace(TrimStart(s))
    else
      var rest := SplitOnWhitespace(s[1..]);
      [[s[0]] + rest[0]] + rest[1..]
  }

  /** `s.split(/\s+/).length` */
  function WordCount(s: string): (n: nat)
    ensures n >= 1
  {
    |SplitOnWhitespace(s)|
  }

  /**
   * Reference count of the maximal whitespace runs of `s` from position `i`
   * on: the positions that hold whitespace and do not follow whitespace.
   */
  function RunsFrom(s: string, i: nat): nat
    requires i <= |s|
    decreases |s| - i
  {
    if i == |s| then 0
    else (if IsSpace(s[i]) && (i == 0 || !IsSpace(s[i - 1])) then 1 else 0) + RunsFrom(s, i + 1)
  }

  /** The same count over a suffix, told whether the character before it was whitespace. */
  function RunStarts(s: string, afterSpace: bool): nat
  {
    if s == [] then 0
    else (if IsSpace(s[0]) && !afterSpace then 1 else 0) + RunStarts(s[1..], IsSpace(s[0]))
  }

  /** The characters of `s` that are not whitespace, in order. */
  function NonSpaceChars(s: string): (r: string)
    ensures NoSpace(r)
  {
    if s == [] then [] else (if IsSpace(s[0]) then [] else [s[0]]) + NonSpaceChars(s[1..])
  }

  /** All pieces concatenated. */
  function Concat(pieces: seq<string>): string
  {
    if pieces == [] then [] else pieces[0] + Concat(pieces[1..])
  }

  lemma {:induction false} RunStartsAfterSpace(s: string)
    ensures RunStarts(s, true) == RunStarts(TrimStart(s), false)
    decreases |s|
  {
    if s != [] && IsSpace(s[0]) {
      RunStartsAfterSpace(s[1..]);
    }
  }

  lemma {:induction false} RunStartsOfSuffix(s: string, i: nat)
    requires i <= |s|
    ensures RunsFrom(s, i) == RunStarts(s[i..], i > 0 && IsSpace(s[i - 1]))
    decreases |s| - i
  {
    if i < |s| {
      RunStartsOfSuffix(s, i + 1);
      assert s[i..][1..] == s[i + 1..];
    }
  }

  lemma {:induction false} SplitCountsRuns(s: string)
    ensures |SplitOnWhitespace(s)| == RunStarts(s, false) + 1
    decreases |s|
  {
    if s == [] {
    } else if IsSpace(s[0]) {
      SplitCountsRuns(TrimStart(s));
      RunStartsAfterSpace(s[1..]);
    } else {
      SplitCountsRuns(s[1..]);
    }
  }

  /** The word count is one more than the number of whitespace runs. */
  lemma WordCountIsRunsPlusOne(s: string)
    ensures WordCount(s) == RunsFrom(s, 0) + 1
  {
    SplitCountsRuns(s);
    RunStartsOfSuffix(s, 0);
  }

  /** No piece contains whitespace. */
  lemma {:induction false} PiecesHaveNoSpace(s: string)
    ensures forall k :: 0 <= k < |SplitOnWhitespace(s)| ==> NoSpace(SplitOnWhitespace(s)[k])
    decreases |s|
  {
    if s == [] {
    } else if IsSpace(s[0]) {
      PiecesHaveNoSpace(TrimStart(s));
    } else {
      PiecesHaveNoSpace(s[1..]);
    }
  }

  lemma {:induction false} NonSpaceCharsSkipsSpaces(s: string)
    ensures NonSpaceChars(TrimStart(s)) == NonSpaceChars(s)
    decreases |s|
  {
    if s != [] && IsSpace(s[0]) {
      NonSpaceCharsSkipsSpaces(s[1..]);
    }
  }

  lemma ConcatFront(x: string, tail: seq<string>)
    ensures Concat([x] + tail) == x + Concat(tail)
  {
    assert ([x] + tail)[1..] == tail;
  }

  /** Splitting drops the whitespace and nothing else: the pieces put back together are the non-whitespace characters. */
  lemma {:induction false} PiecesKeepEveryOtherChar(s: string)
    ensures Concat(SplitOnWhitespace(s)) == NonSpaceChars(s)
    decreases |s|
  {
    if s == [] {
    } else if IsSpace(s[0]) {
      var t := TrimStart(s);
      PiecesKeepEveryOtherChar(t);
      NonSpaceCharsSkipsSpaces(s[1..]);
      ConcatFront("", SplitOnWhitespace(t));
      assert "" + Concat(SplitOnWhitespace(t)) == Concat(SplitOnWhitespace(t));
    } else {
      var rest := SplitOnWhitespace(s[1..]);
      PiecesKeepEveryOtherChar(s[1..]);
      assert rest == [rest[0]] + rest[1..];
      ConcatFront(rest[0], rest[1..]);
      ConcatFront([s[0]] + rest[0], rest[1..]);
      assert ([s[0]] + rest[0]) + Concat(rest[1..]) == [s[0]] + (rest[0] + Concat(rest[1..]));
    }
  }

  /** Worked value: a five-word text over two lines. */
  lemma WordCountOfSample()
    ensures WordCount("Hello world.\nA new line.") == 5
  {
    var s := "Hello world.\nA new line.";
    assert RunsFrom(s, 24) == 0;
    assert RunsFrom(s, 22) == 0;
    assert RunsFrom(s, 20) == 0;
    assert RunsFrom(s, 18) == 1;
    assert RunsFrom(s, 16) == 1;
    assert RunsFrom(s, 14) == 2;
    assert RunsFrom(s, 12) == 3;
    assert RunsFrom(s, 10) == 3;
    assert RunsFrom(s, 8) == 3;
    assert RunsFrom(s, 6) == 3;
    assert RunsFrom(s, 4) == 4;
    assert RunsFrom(s, 2) == 4;
    assert RunsFrom(s, 0) == 4;
    WordCountIsRunsPlusOne(s);
  }

  /** Worked values: the empty text still counts one word, and a lone space two. */
  lemma WordCountOfBlank()
    ensures WordCount("") == 1
    ensures WordCount(" ") == 2
  {
    assert SplitOnWhitespace(" ") == [""] + SplitOnWhitespace(TrimStart(" "));
  }

  /** A slice that lies after `a` in `a + b` is the matching slice of `b`. */
  lemma SliceAfter(a: string, b: string, i: nat, j: nat)
    requires i <= j <= |b|
    ensures (a + b)[|a| + i..|a| + j] == b[i..j]
  {
  }

  /** A slice that lies within `b` in `b + c` is the same slice of `b`. */
  lemma SliceBefore(b: string, c: string, i: nat, j: nat)
    requires i <= j <= |b|
    ensures (b + c)[i..j] == b[i..j]
  {
  }

  // ---------------------------------------------------------------- join

  /** `parts.join(sep)` */
  function Join(parts: seq<string>, sep: string): (r: string)
    ensures parts == [] ==> r == ""
    ensures parts != [] ==> StartsWith(r, parts[0])
  {
    if parts == [] then ""
    else if |parts| == 1 then parts[0]
    else parts[0] + sep + Join(parts[1..], sep)
  }

  /** Where part `k` begins in `Join(parts, sep)`: after every earlier part and its separator. */
  function PartOffset(parts: seq<string>, sep: string, k: nat): nat
    requires k < |parts|
  {
    if k == 0 then 0 else |parts[0]| + |sep| + PartOffset(parts[1..], sep, k - 1)
  }

  /** Join loses nothing: every part stands at its offset in the joined text, and the last part ends it. */
  lemma {:induction false} JoinHoldsPart(parts: seq<string>, sep: string, k: nat)
    requires k < |parts|
    ensures PartOffset(parts, sep, k) + |parts[k]| <= |Join(parts, sep)|
    ensures Join(parts, sep)[PartOffset(parts, sep, k)..PartOffset(parts, sep, k) + |parts[k]|] == parts[k]
    ensures k + 1 == |parts| ==> PartOffset(parts, sep, k) + |parts[k]| == |Join(parts, sep)|
  {
    if |parts| > 1 {
      var head := parts[0] + sep;
      var tail := Join(parts[1..], sep);
      assert Join(parts, sep) == head + tail;
      if k > 0 {
        JoinHoldsPart(parts[1..], sep, k - 1);
        var o := PartOffset(parts[1..], sep, k - 1);
        assert parts[1..][k - 1] == parts[k];
        SliceAfter(head, tail, o, o + |parts[k]|);
      }
    }
  }

  /** A separator follows every part but the last. */
  lemma {:induction false} JoinSeparatorFollows(parts: seq<string>, sep: string, k: nat)
    requires k + 1 < |parts|
    ensures var o := PartOffset(parts, sep, k) + |parts[k]|;
            o + |sep| <= |Join(parts, sep)| && Join(parts, sep)[o..o + |sep|] == sep
  {
    var head := parts[0] + sep;
    var tail := Join(parts[1..], sep);
    assert Join(parts, sep) == head + tail;
    if k == 0 {
      assert (head + tail)[|parts[0]|..|parts[0]| + |sep|] == sep;
    } else {
      JoinSeparatorFollows(parts[1..], sep, k - 1);
      var o := PartOffset(parts[1..], sep, k - 1) + |parts[k]|;
      assert parts[1..][k - 1] == parts[k];
      SliceAfter(head, tail, o, o + |sep|);
    }
  }

  /** Consecutive parts are one part and one separator apart. */
  lemma {:induction false} PartOffsetNext(parts: seq<string>, sep: string, k: nat)
    requires k + 1 < |parts|
    ensures PartOffset(parts, sep, k + 1) == PartOffset(parts, sep, k) + |parts[k]| + |sep|
  {
    if k > 0 {
      PartOffsetNext(parts[1..], sep, k - 1);
      assert parts[1..][k - 1] == parts[k];
    }
  }
}
