/** Cutting the content out of a `file:line:content` line of grep output with one greedy pattern:
    anything, a colon, digits, a colon, anything. */
module GrepLines {
  import opened Text

  predicate IsDigit(c: char) {
    '0' <= c <= '9'
  }

  lemma DigitIs(c: char)
    ensures IsDigit(c) <==> c in {'0', '1', '2', '3', '4', '5', '6', '7', '8', '9'}
  {
    if IsDigit(c) {
      assert c as int in {48, 49, 50, 51, 52, 53, 54, 55, 56, 57};
    }
  }

  predicate Digits(s: string) {
    s != "" && forall i :: 0 <= i < |s| ==> IsDigit(s[i])
  }

  /** The pattern's middle matches `line[i..j+1]`: a colon at `i`, digits, a colon at `j`. */
  predicate Matches(line: string, i: int, j: int) {
    && 0 <= i && i + 1 < j < |line| && line[i] == ':' && line[j] == ':'
    && forall k :: i < k < j ==> IsDigit(line[k])
  }

  function RStripNewlines(s: string): string {
    if s != "" && s[|s| - 1] == '\n' then RStripNewlines(s[..|s| - 1]) else s
  }

  /** The end of the digits that start at `i`. */
  function DigitsEnd(line: string, i: nat): (j: nat)
    requires i <= |line|
    ensures i <= j <= |line|
    ensures forall k :: i <= k < j ==> IsDigit(line[k])
    ensures j < |line| ==> !IsDigit(line[j])
    decreases |line| - i
  {
    if i < |line| && IsDigit(line[i]) then DigitsEnd(line, i + 1) else i
  }

  /** Greedy matching: try the longest first group, so the rightmost colon, first. */
  function GreedySplit(line: string, from: nat): Option<string>
    requires from <= |line|
  {
    if from == 0 then None
    else
      var i := from - 1;
      if line[i] == ':' then
        var j := DigitsEnd(line, from);
        if from < j < |line| && line[j] == ':' then Some(line[j + 1..]) else GreedySplit(line, i)
      else GreedySplit(line, i)
  }

  /** `grep_line_content` on a line without inner newlines. */
  function GrepLineContent(line: string): string {
    var text := RStripNewlines(line);
    var r := GreedySplit(text, |text|);
    if r.Some? then r.value else ""
  }

  /** A match is determined by its first colon. */
  lemma MatchEnd(line: string, i: nat, j: nat)
    requires Matches(line, i, j)
    ensures j == DigitsEnd(line, i + 1) && i + 1 < j
  {
    assert !IsDigit(line[j]);
  }

  /** What is returned is the text after the last match, and nothing is returned without one. */
  lemma {:induction false} SplitsAtLastMatch(line: string, from: nat)
    requires from <= |line|
    ensures match GreedySplit(line, from)
            case None => forall i, j :: i < from ==> !Matches(line, i, j)
            case Some(content) =>
              exists i, j :: Matches(line, i, j) && i < from && content == line[j + 1..]
                             && forall i', j' :: Matches(line, i', j') && i' < from ==> i' <= i
  {
    if from > 0 {
      var i := from - 1;
      var j := DigitsEnd(line, from);
      if line[i] == ':' && from < j < |line| && line[j] == ':' {
        assert Matches(line, i, j);
      } else {
        SplitsAtLastMatch(line, i);
        forall j' ensures !Matches(line, i, j') {
          if Matches(line, i, j') {
            MatchEnd(line, i, j');
          }
        }
      }
    }
  }

  // ----- on grep's own lines -----

  /** The content itself has something that looks like a line number: `digits:` at its start, or
      `:digits:` further on. */
  ghost predicate HasNumberField(content: string) {
    exists i, j :: Matches(":" + content, i, j)
  }

  lemma NumberFieldIs(content: string)
    ensures HasNumberField(content) <==>
            || (exists j :: Matches(":" + content, 0, j))
            || (exists i, j :: Matches(content, i, j))
  {
    var text := ":" + content;
    forall i, j ensures Matches(content, i, j) <==> i >= 0 && Matches(text, i + 1, j + 1) {
      if i >= 0 && Matches(text, i + 1, j + 1) {
        forall k | i < k < j ensures IsDigit(content[k]) {
          assert text[k + 1] == content[k];
        }
      }
    }
    if i, j :| Matches(text, i, j) {
      if i > 0 {
        assert Matches(content, i - 1, j - 1);
      }
    }
  }

  lemma NoNewlineNoStrip(s: string)
    requires '\n' !in s
    ensures RStripNewlines(s) == s
  {
  }

  /** A match inside a suffix that starts with a colon, seen from the whole line. */
  lemma SuffixMatch(head: string, tail: string, i: int, j: int)
    requires 0 <= i
    ensures Matches(tail, i, j) <==> Matches(head + tail, |head| + i, |head| + j)
  {
    var line := head + tail;
    assert forall k :: 0 <= k < |tail| ==> line[|head| + k] == tail[k];
    if Matches(line, |head| + i, |head| + j) {
      forall k | i < k < j ensures IsDigit(tail[k]) {
        assert IsDigit(line[|head| + k]);
      }
    }
  }

  /** `(i, j)` is the last match of a line. */
  ghost predicate LastMatch(line: string, i: int, j: int) {
    Matches(line, i, j) && forall i', j' :: Matches(line, i', j') ==> i' <= i
  }

  lemma SplitAtMatch(line: string, i: int, j: int)
    requires LastMatch(line, i, j)
    ensures GreedySplit(line, |line|) == Some(line[j + 1..])
  {
    hide GreedySplit, DigitsEnd;
    SplitsAtLastMatch(line, |line|);
    var i', j' :| Matches(line, i', j') && GreedySplit(line, |line|) == Some(line[j' + 1..])
                  && forall i'', j'' :: Matches(line, i'', j'') && i'' < |line| ==> i'' <= i';
    MatchEnd(line, i, j);
    MatchEnd(line, i', j');
  }

  /** The last match of a suffix that starts with a colon is the last match of the line. */
  lemma LastInSuffix(head: string, tail: string, i: int, j: int)
    requires LastMatch(tail, i, j)
    ensures LastMatch(head + tail, |head| + i, |head| + j)
  {
    SuffixMatch(head, tail, i, j);
    forall i', j' | Matches(head + tail, i', j') ensures i' <= |head| + i {
      if i' >= |head| {
        SuffixMatch(head, tail, i' - |head|, j' - |head|);
      }
    }
  }

  /** Without a match in that suffix, the number before it is the last match. */
  lemma LastBeforeSuffix(head: string, tail: string, i: int)
    requires forall i', j' :: !Matches(tail, i', j')
    requires Matches(head + tail, i, |head|)
    ensures LastMatch(head + tail, i, |head|)
  {
    var line := head + tail;
    assert forall k :: i < k < |head| ==> line[k] != ':';
    forall i', j' | Matches(line, i', j') ensures i' <= i {
      if i' >= |head| {
        SuffixMatch(head, tail, i' - |head|, j' - |head|);
      }
    }
  }

  lemma LastMatchExists(line: string, i: int, j: int) returns (a: int, b: int)
    requires Matches(line, i, j)
    ensures LastMatch(line, a, b)
  {
    SplitsAtLastMatch(line, |line|);
    a, b :| Matches(line, a, b) && forall i', j' :: Matches(line, i', j') && i' < |line| ==> i' <= a;
  }

  lemma NumberIsMatch(path: string, number: string, tail: string)
    requires Digits(number) && tail != "" && tail[0] == ':'
    ensures Matches(path + ":" + number + tail, |path|, |path + ":" + number|)
  {
    var line := path + ":" + number + tail;
    assert forall k :: |path| < k < |path| + 1 + |number| ==> line[k] == number[k - |path| - 1];
  }

  /** Of a line `path:number:content` the content is returned whole if and only if it has no number
      field of its own; otherwise the text after the last of those is. */
  lemma ContentOfGrepLine(path: string, number: string, content: string)
    requires Digits(number) && '\n' !in path && '\n' !in content
    ensures var line := path + ":" + number + (":" + content);
            && (GrepLineContent(line) == content <==> !HasNumberField(content))
            && (forall i, j :: LastMatch(":" + content, i, j) ==> GrepLineContent(line) == (":" + content)[j + 1..])
  {
    var head, tail := path + ":" + number, ":" + content;
    var line := head + tail;
    assert '\n' !in number;
    NoNewlineNoStrip(line);
    NumberIsMatch(path, number, tail);
    forall i, j | LastMatch(tail, i, j)
      ensures GrepLineContent(line) == tail[j + 1..] && |tail[j + 1..]| < |content|
    {
      LastInSuffix(head, tail, i, j);
      SplitAtMatch(line, |head| + i, |head| + j);
      assert line[|head| + j + 1..] == tail[j + 1..];
    }
    if HasNumberField(content) {
      var i, j :| Matches(tail, i, j);
      var a, b := LastMatchExists(tail, i, j);
    } else {
      LastBeforeSuffix(head, tail, |path|);
      SplitAtMatch(line, |path|, |head|);
      assert line[|head| + 1..] == content;
    }
  }

  /** An hour, minute and second in the content are enough to lose its beginning. */
  lemma TimestampLosesItsHour(path: string, number: string, before: string, minute: string, after: string)
    requires Digits(number) && Digits(minute) && '\n' !in path && '\n' !in before && '\n' !in after
    ensures var content := before + ":" + minute + ":" + after;
            GrepLineContent(path + ":" + number + (":" + content)) != content
  {
    var content := before + ":" + minute + ":" + after;
    var text := ":" + content;
    assert Matches(text, 1 + |before|, 2 + |before| + |minute|) by {
      assert forall k :: 1 + |before| < k < 2 + |before| + |minute| ==> text[k] == minute[k - |before| - 2];
    }
    assert '\n' !in minute;
    ContentOfGrepLine(path, number, content);
  }

  // ----- which traces a line is filed under -----

  /** A line of grep output is filed under every pattern that its content holds. */
  method FileLines(lines: seq<string>, patterns: seq<string>) returns (matches: seq<(string, string)>)
    ensures forall trace, line :: (trace, line) in matches <==>
              line in lines && trace in patterns && Contains(GrepLineContent(line), trace)
  {
    matches := [];
    for i := 0 to |lines|
      invariant forall trace, line :: (trace, line) in matches <==>
                  line in lines[..i] && trace in patterns && Contains(GrepLineContent(line), trace)
    {
      var more := FileLine(lines[i], patterns);
      matches := matches + more;
      assert lines[..i + 1] == lines[..i] + [lines[i]];
    }
    assert lines[..|lines|] == lines;
  }

  method FileLine(line: string, patterns: seq<string>) returns (matches: seq<(string, string)>)
    ensures forall trace, other :: (trace, other) in matches <==>
              other == line && trace in patterns && Contains(GrepLineContent(line), trace)
  {
    matches := [];
    for i := 0 to |patterns|
      invariant forall trace, other :: (trace, other) in matches <==>
                  other == line && trace in patterns[..i] && Contains(GrepLineContent(line), trace)
    {
      if Contains(GrepLineContent(line), patterns[i]) {
        matches := matches + [(patterns[i], line)];
      }
      assert patterns[..i + 1] == patterns[..i] + [patterns[i]];
    }
    assert patterns[..|patterns|] == patterns;
  }

  /** Where in the content its last number field ends; its beginning if it has none. */
  ghost predicate IsCut(content: string, cut: int) {
    if HasNumberField(content) then exists i :: LastMatch(":" + content, i, cut) else cut == 0
  }

  lemma CutContent(path: string, number: string, content: string, cut: int)
    requires Digits(number) && '\n' !in path && '\n' !in content && IsCut(content, cut)
    ensures 0 <= cut <= |content| && GrepLineContent(path + ":" + number + (":" + content)) == content[cut..]
  {
    ContentOfGrepLine(path, number, content);
    if HasNumberField(content) {
      var i :| LastMatch(":" + content, i, cut);
      assert (":" + content)[cut + 1..] == content[cut..];
    }
  }

  lemma OccursInSuffix(content: string, cut: nat, trace: string)
    requires cut <= |content|
    ensures Contains(content[cut..], trace) <==> exists p :: cut <= p && OccursAt(trace, content, p)
  {
    if i :| 0 <= i <= |content[cut..]| && OccursAt(trace, content[cut..], i) {
      assert content[cut..][i..] == content[cut + i..];
      assert OccursAt(trace, content, cut + i);
    }
    if p :| cut <= p && OccursAt(trace, content, p) {
      assert content[cut..][p - cut..] == content[p..];
      assert OccursAt(trace, content[cut..], p - cut);
    }
  }

  /** A trace on a line is lost if and only if the line has a number field of its own and the trace
      occurs only before the end of the last one. */
  lemma TraceLost(path: string, number: string, content: string, trace: string, cut: int)
    requires Digits(number) && '\n' !in path && '\n' !in content && IsCut(content, cut)
    ensures var filed := Contains(GrepLineContent(path + ":" + number + (":" + content)), trace);
            && (filed <==> exists p :: cut <= p && OccursAt(trace, content, p))
            && (Contains(content, trace) && !filed <==>
                  Contains(content, trace) && cut > 0 && forall p :: OccursAt(trace, content, p) ==> p < cut)
  {
    CutContent(path, number, content, cut);
    OccursInSuffix(content, cut, trace);
    OccursInSuffix(content, 0, trace);
    assert content[0..] == content;
  }
}
