/**
 The rewrapping of adjacent string literals to a line limit. A line is either one literal, in
 the parts that the literal pattern names, or some other text; reading and writing the file and
 the pattern itself are not modelled.
 */
module Rewrap {
  import opened Wrappers

  // ---- words ----------------------------------------------------------------------------

  function Split(body: string): (words: seq<string>)
    ensures words != []
  {
    if body == "" then [""]
    else
      var front := Split(body[..|body| - 1]);
      var c := body[|body| - 1];
      if c == ' ' then front + [""] else front[|front| - 1 := front[|front| - 1] + [c]]
  }

  function Join(words: seq<string>): string {
    if words == [] then ""
    else if |words| == 1 then words[0]
    else Join(words[..|words| - 1]) + " " + words[|words| - 1]
  }

  predicate NoSpace(w: string) {
    ' ' !in w
  }

  lemma JoinSnoc(words: seq<string>, w: string)
    ensures Join(words + [w]) == if words == [] then w else Join(words) + " " + w
  {
    assert (words + [w])[..|words|] == words;
  }

  lemma JoinExtendLast(init: seq<string>, last: string, c: char)
    ensures Join(init + [last + [c]]) == Join(init + [last]) + [c]
  {
    JoinSnoc(init, last);
    JoinSnoc(init, last + [c]);
    if init != [] { assert Join(init) + " " + (last + [c]) == (Join(init) + " " + last) + [c]; }
  }

  lemma {:induction false} JoinOfSplit(body: string)
    ensures Join(Split(body)) == body
  {
    if body != "" {
      var before, c := body[..|body| - 1], body[|body| - 1];
      JoinOfSplit(before);
      var front := Split(before);
      assert body == before + [c];
      if c == ' ' {
        JoinSnoc(front, "");
        assert before + " " + "" == body;
      } else {
        var init, last := front[..|front| - 1], front[|front| - 1];
        assert front == init + [last] && Split(body) == init + [last + [c]];
        JoinExtendLast(init, last, c);
      }
    }
  }

  lemma {:induction false} SplitHasNoSpaces(body: string)
    ensures forall i :: 0 <= i < |Split(body)| ==> NoSpace(Split(body)[i])
  {
    if body != "" {
      SplitHasNoSpaces(body[..|body| - 1]);
    }
  }

  predicate NoEmptyWord(words: seq<string>) {
    forall i :: 0 <= i < |words| ==> words[i] != ""
  }

  // ---- filling --------------------------------------------------------------------------

  /** Room for the text of a literal; the first one shares its line with the lead. */
  datatype Width = Width(limit: int, indent: nat, lead: nat)

  function Budget(w: Width, first: bool): int {
    w.limit - w.indent - 2 - if first then w.lead else 0
  }

  function Candidate(current: string, word: string): string {
    if current == "" then word else current + " " + word
  }

  /** A full line is put out when the next word, and the space after it, would not fit. */
  predicate Breaks(w: Width, current: string, first: bool, word: string) {
    current != "" && |Candidate(current, word)| + 1 > Budget(w, first)
  }

  function FillFrom(w: Width, words: seq<string>, current: string, first: bool): seq<string> {
    if words == [] then (if current == "" then [] else [current])
    else if Breaks(w, current, first, words[0]) then [current] + FillFrom(w, words[1..], words[0], false)
    else FillFrom(w, words[1..], Candidate(current, words[0]), first)
  }

  method Fill(w: Width, body: string) returns (lines: seq<string>)
    ensures lines == FillFrom(w, Split(body), "", true)
  {
    var words := Split(body);
    lines := [];
    var current, first := "", true;
    for i := 0 to |words|
      invariant lines + FillFrom(w, words[i..], current, first) == FillFrom(w, words, "", true)
    {
      var candidate := if current == "" then words[i] else current + " " + words[i];
      assert words[i..][1..] == words[i + 1..];
      if current != "" && |candidate| + 1 > Budget(w, first) {
        Assoc(lines, [current], FillFrom(w, words[i + 1..], words[i], false));
        lines := lines + [current];
        current := words[i];
        first := false;
      } else {
        current := candidate;
      }
    }
    if current != "" {
      lines := lines + [current];
    }
  }

  lemma Spaced(a: string, b: string, c: string)
    ensures (a + " " + b) + " " + c == a + " " + (b + " " + c)
  {
  }

  lemma {:induction false} JoinCons(w: string, words: seq<string>)
    ensures Join([w] + words) == if words == [] then w else w + " " + Join(words)
  {
    if |words| == 0 {
      assert [w] + words == [w];
    } else {
      var init, last := words[..|words| - 1], words[|words| - 1];
      JoinCons(w, init);
      assert [w] + words == ([w] + init) + [last] && words == init + [last];
      JoinSnoc([w] + init, last);
      JoinSnoc(init, last);
      Spaced(w, Join(init), last);
    }
  }

  lemma JoinMerge(a: string, b: string, rest: seq<string>)
    ensures Join([a + " " + b] + rest) == Join([a] + ([b] + rest))
  {
    JoinCons(a + " " + b, rest);
    JoinCons(b, rest);
    JoinCons(a, [b] + rest);
    Spaced(a, b, Join(rest));
  }

  /** A line fits its budget with room for the separator, or it is a single word. */
  predicate Fits(w: Width, line: string, first: bool) {
    |line| + 1 <= Budget(w, first) || NoSpace(line)
  }

  lemma {:induction false} FillFits(w: Width, words: seq<string>, current: string, first: bool)
    requires forall i :: 0 <= i < |words| ==> NoSpace(words[i])
    requires Fits(w, current, first)
    ensures forall k :: 0 <= k < |FillFrom(w, words, current, first)| ==>
      Fits(w, FillFrom(w, words, current, first)[k], first && k == 0)
    ensures forall k :: 0 <= k < |FillFrom(w, words, current, first)| ==> FillFrom(w, words, current, first)[k] != ""
  {
    if words != [] {
      if Breaks(w, current, first, words[0]) {
        FillFits(w, words[1..], words[0], false);
      } else {
        FillFits(w, words[1..], Candidate(current, words[0]), first);
      }
    }
  }

  /** The word that a line starts with. */
  function FirstWord(line: string): string {
    if line == "" || line[0] == ' ' then "" else [line[0]] + FirstWord(line[1..])
  }

  lemma {:induction false} FirstWordOf(w: string, rest: string)
    requires NoSpace(w) && (rest == "" || rest[0] == ' ')
    ensures FirstWord(w + rest) == w
  {
    if w != "" {
      assert (w + rest)[1..] == w[1..] + rest;
      FirstWordOf(w[1..], rest);
    } else {
      assert w + rest == rest;
    }
  }

  /** What is put out for a line in progress starts with it. */
  lemma {:induction false} FillStartsWith(w: Width, words: seq<string>, current: string, first: bool)
    requires current != ""
    ensures var lines := FillFrom(w, words, current, first);
      lines != [] && current <= lines[0] && (lines[0] == current || lines[0][|current|] == ' ')
  {
    if words != [] && !Breaks(w, current, first, words[0]) {
      FillStartsWith(w, words[1..], Candidate(current, words[0]), first);
    }
  }

  /** After a break the next line starts with a word at least as long as the one that did not fit. */
  lemma {:induction false} NextLineStarts(w: Width, words: seq<string>, current: string)
    requires NoSpace(current) && forall i :: 0 <= i < |words| ==> NoSpace(words[i])
    ensures var lines := FillFrom(w, words, current, false);
      lines != [] ==> |FirstWord(lines[0])| >= |current|
  {
    if current != "" {
      FillStartsWith(w, words, current, false);
      var line := FillFrom(w, words, current, false)[0];
      assert line == current + line[|current|..];
      FirstWordOf(current, line[|current|..]);
    }
  }

  /** The first word of the next line, and the spaces before and after it, had no room on this line. */
  predicate NoRoom(w: Width, line: string, next: string, head: bool) {
    |line| + 1 + |FirstWord(next)| + 1 > w.limit - w.indent - 2 - (if head then w.lead else 0)
  }

  /** No line but the last could have taken the first word of the next one. */
  ghost predicate Greedy(w: Width, lines: seq<string>, first: bool) {
    forall k, l :: 0 <= k && l == k + 1 && l < |lines| ==> NoRoom(w, lines[k], lines[l], first && k == 0)
  }

  lemma GreedyCons(w: Width, line: string, rest: seq<string>, first: bool)
    requires Greedy(w, rest, false) && (rest != [] ==> NoRoom(w, line, rest[0], first))
    ensures Greedy(w, [line] + rest, first)
  {
    var lines := [line] + rest;
    forall k, l | 0 <= k && l == k + 1 && l < |lines| ensures NoRoom(w, lines[k], lines[l], first && k == 0) {
      if k > 0 { assert NoRoom(w, rest[k - 1], rest[l - 1], false && k - 1 == 0); }
    }
  }

  /**
   The fill is greedy: the first word of a line would not have fitted on the line before it,
   with the space between them and the space that ends a literal.
   */
  lemma {:induction false} FillIsGreedy(w: Width, words: seq<string>, current: string, first: bool)
    requires forall i :: 0 <= i < |words| ==> NoSpace(words[i])
    ensures Greedy(w, FillFrom(w, words, current, first), first)
  {
    if words != [] {
      if Breaks(w, current, first, words[0]) {
        FillIsGreedy(w, words[1..], words[0], false);
        NextLineStarts(w, words[1..], words[0]);
        GreedyCons(w, current, FillFrom(w, words[1..], words[0], false), first);
      } else {
        FillIsGreedy(w, words[1..], Candidate(current, words[0]), first);
      }
    }
  }

  /** The fill leaves at least one line and the lines join to the body again. */
  predicate KeepsText(w: Width, body: string) {
    var lines := FillFrom(w, Split(body), "", true);
    lines != [] && Join(lines) == body
  }

  // ---- at one limit ---------------------------------------------------------------------

  function TextSize(words: seq<string>): nat {
    if words == [] then 0 else |words[0]| + TextSize(words[1..])
  }

  lemma {:induction false} JoinSize(words: seq<string>)
    ensures words != [] ==> |Join(words)| == TextSize(words) + |words| - 1
  {
    if words != [] {
      JoinSize(words[1..]);
      assert words == [words[0]] + words[1..];
      JoinCons(words[0], words[1..]);
    }
  }

  /** Some line is put out because of an empty word, which then leaves no trace. */
  predicate BreaksAtEmpty(w: Width, words: seq<string>, current: string, first: bool) {
    words != [] &&
    if Breaks(w, current, first, words[0]) then words[0] == "" || BreaksAtEmpty(w, words[1..], words[0], false)
    else BreaksAtEmpty(w, words[1..], Candidate(current, words[0]), first)
  }

  /** The body is not empty, starts with a word, and no line is put out at an empty word. */
  predicate LosesNothing(w: Width, body: string) {
    Split(body)[0] != "" && !BreaksAtEmpty(w, Split(body), "", true)
  }

  /** Filling never makes a text longer than its words with a space between any two. */
  lemma {:induction false} FillSize(w: Width, words: seq<string>, current: string, first: bool)
    ensures var lines := FillFrom(w, words, current, first);
      && (current != "" ==> lines != [] && |Join(lines)| <= |current| + TextSize(words) + |words|)
      && (words != [] && lines != [] ==> |Join(lines)| <= |current| + TextSize(words) + |words|)
      && (current == "" && lines != [] ==> |Join(lines)| <= TextSize(words) + |words| - 1)
  {
    if words != [] {
      if Breaks(w, current, first, words[0]) {
        FillSize(w, words[1..], words[0], false);
        JoinCons(current, FillFrom(w, words[1..], words[0], false));
      } else {
        FillSize(w, words[1..], Candidate(current, words[0]), first);
      }
    }
  }

  /** A line put out because of an empty word costs a space. */
  lemma {:induction false} BreakLosesSpace(w: Width, words: seq<string>, current: string, first: bool)
    requires current != "" && BreaksAtEmpty(w, words, current, first)
    ensures var lines := FillFrom(w, words, current, first);
      lines != [] && |Join(lines)| < |current| + TextSize(words) + |words|
  {
    var word, rest := words[0], words[1..];
    if Breaks(w, current, first, word) {
      FillSize(w, rest, word, false);
      if word != "" { BreakLosesSpace(w, rest, word, false); }
      JoinCons(current, FillFrom(w, rest, word, false));
    } else {
      BreakLosesSpace(w, rest, Candidate(current, word), first);
    }
  }

  /** With no line put out at an empty word, the lines join to the same text. */
  lemma {:induction false} FillKeepsText(w: Width, words: seq<string>, current: string, first: bool)
    requires current != "" && !BreaksAtEmpty(w, words, current, first)
    ensures FillFrom(w, words, current, first) != []
    ensures Join(FillFrom(w, words, current, first)) == Join([current] + words)
  {
    if words == [] {
      assert [current] + words == [current];
    } else {
      var word, rest := words[0], words[1..];
      assert words == [word] + rest;
      if Breaks(w, current, first, word) {
        FillKeepsText(w, rest, word, false);
        JoinCons(current, FillFrom(w, rest, word, false));
        JoinCons(current, words);
      } else {
        FillKeepsText(w, rest, Candidate(current, word), first);
        JoinMerge(current, word, rest);
      }
    }
  }

  /** At one limit a body keeps its text exactly when nothing is lost at an empty word. */
  lemma TextKeptAtLimit(w: Width, body: string)
    ensures KeepsText(w, body) <==> LosesNothing(w, body)
  {
    var words := Split(body);
    var word, rest := words[0], words[1..];
    assert words == [word] + rest;
    JoinOfSplit(body);
    JoinSize(words);
    if word == "" {
      FillSize(w, rest, "", true);
    } else if BreaksAtEmpty(w, rest, word, true) {
      BreakLosesSpace(w, rest, word, true);
    } else {
      FillKeepsText(w, rest, word, true);
    }
  }

  // ---- at every limit -------------------------------------------------------------------

  lemma {:induction false} NoEmptyBreak(w: Width, words: seq<string>, current: string, first: bool)
    requires NoEmptyWord(words)
    ensures !BreaksAtEmpty(w, words, current, first)
  {
    if words != [] {
      NoEmptyBreak(w, words[1..], if Breaks(w, current, first, words[0]) then words[0] else Candidate(current, words[0]),
                   first && !Breaks(w, current, first, words[0]));
    }
  }

  /** At limit 0 every word is put on a line of its own. */
  lemma {:induction false} EmptyBreakAtZero(w: Width, words: seq<string>, current: string, first: bool)
    requires w.limit == 0 && current != "" && !NoEmptyWord(words)
    ensures BreaksAtEmpty(w, words, current, first)
  {
    if words[0] != "" {
      assert NoEmptyWord(words[1..]) ==> NoEmptyWord(words);
      EmptyBreakAtZero(w, words[1..], words[0], false);
    }
  }

  /**
   A body keeps its text at every limit exactly when it has no empty word: it is not empty and
   has no leading, trailing or doubled space. Otherwise limit 0 loses a space or the literal.
   */
  lemma TextKeptExactly(body: string, indent: nat, lead: nat)
    ensures (forall limit :: KeepsText(Width(limit, indent, lead), body)) <==> NoEmptyWord(Split(body))
  {
    var words := Split(body);
    forall limit ensures KeepsText(Width(limit, indent, lead), body) <==> LosesNothing(Width(limit, indent, lead), body) {
      TextKeptAtLimit(Width(limit, indent, lead), body);
    }
    if NoEmptyWord(words) {
      forall limit ensures LosesNothing(Width(limit, indent, lead), body) {
        NoEmptyBreak(Width(limit, indent, lead), words, "", true);
      }
    } else if words[0] != "" {
      assert NoEmptyWord(words[1..]) ==> NoEmptyWord(words);
      EmptyBreakAtZero(Width(0, indent, lead), words[1..], words[0], true);
    }
    assert !NoEmptyWord(words) ==> !LosesNothing(Width(0, indent, lead), body);
  }
}
