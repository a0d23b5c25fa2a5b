/**
 The rewrapping of a whole file: runs of adjacent literal lines are found, over-long ones are
 refilled, and everything else is copied.
 */
module RewrapFile {
  import opened Wrappers
  import opened Rewrap

  /** A literal line in the parts of the pattern, with the spaces at its end, or another line. */
  datatype Line =
    | Literal(indent: nat, lead: string, body: string, trail: bool, pad: nat)
    | Other(text: string)

  function Len(l: Line): nat {
    match l
    case Literal(indent, lead, body, trail, pad) => indent + |lead| + 2 + |body| + (if trail then 1 else 0) + pad
    case Other(text) => |text|
  }

  function Spaces(n: nat): (s: string)
    ensures |s| == n
  {
    if n == 0 then "" else Spaces(n - 1) + " "
  }

  /** The line as it stands in the file. */
  function Text(l: Line): string {
    match l
    case Literal(indent, lead, body, trail, pad) =>
      Spaces(indent) + lead + "\"" + body + "\"" + (if trail then "," else "") + Spaces(pad)
    case Other(text) => text
  }

  lemma LenIsLength(l: Line)
    ensures Len(l) == |Text(l)|
  {
  }

  // ---- blocks ---------------------------------------------------------------------------

  /** `next` belongs to the block of the literal before it. */
  predicate Continues(l: Line, next: Line) {
    l.Literal? && !l.trail && next.Literal? && next.lead == ""
  }

  /** Each line from `i` up to `j` continues the block of the line before it. */
  ghost predicate RunsOn(lines: seq<Line>, i: int, j: int)
    requires 0 <= i <= j <= |lines|
  {
    forall k, l :: i <= k && l == k + 1 && l < j ==> Continues(lines[k], lines[l])
  }

  ghost predicate IsBlock(blk: seq<Line>) {
    blk != [] && blk[0].Literal? && RunsOn(blk, 0, |blk|)
  }

  /** No block goes on from the line before `j`. */
  ghost predicate EndsAt(lines: seq<Line>, j: int) {
    0 < j < |lines| ==> !Continues(lines[j - 1], lines[j])
  }

  function BlockSize(lines: seq<Line>, i: nat): (n: nat)
    requires i < |lines| && lines[i].Literal?
    ensures 1 <= n <= |lines| - i
    decreases |lines| - i
  {
    if i + 1 < |lines| && Continues(lines[i], lines[i + 1]) then 1 + BlockSize(lines, i + 1) else 1
  }

  /** The block size cuts off a block that cannot be extended, and only one size does. */
  lemma {:induction false} BlockSizeIs(lines: seq<Line>, i: nat, j: nat)
    requires i < j <= |lines| && lines[i].Literal?
    ensures RunsOn(lines, i, j) && EndsAt(lines, j) <==> j == i + BlockSize(lines, i)
    decreases j - i
  {
    if i + 1 < |lines| && Continues(lines[i], lines[i + 1]) {
      if i + 1 < j {
        BlockSizeIs(lines, i + 1, j);
        if RunsOn(lines, i + 1, j) {
          forall k, l | i <= k && l == k + 1 && l < j ensures Continues(lines[k], lines[l]) {
            if k > i { assert Continues(lines[k], lines[l]); }
          }
        }
        if RunsOn(lines, i, j) {
          forall k, l | i + 1 <= k && l == k + 1 && l < j ensures Continues(lines[k], lines[l]) {}
        }
      }
    } else {
      assert i + 1 < j ==> !(i <= i && i + 1 < j && Continues(lines[i], lines[i + 1]));
    }
  }

  function BodyOf(blk: seq<Line>): string {
    if blk == [] then ""
    else (if blk[0].Literal? then blk[0].body else "") + BodyOf(blk[1..])
  }

  predicate OneIndent(blk: seq<Line>)
    requires blk != [] && blk[0].Literal?
  {
    forall i :: 1 <= i < |blk| ==> blk[i].Literal? && blk[i].indent == blk[0].indent
  }

  predicate OverLong(limit: int, blk: seq<Line>) {
    exists i :: 0 <= i < |blk| && Len(blk[i]) > limit
  }

  // ---- one block ------------------------------------------------------------------------

  /** The parts as literals: a space ends every one but the last, which takes the trail. */
  function Emit(parts: seq<string>, indent: nat, lead: string, trail: bool): seq<Line> {
    if parts == [] then []
    else if |parts| == 1 then [Literal(indent, lead, parts[0], trail, 0)]
    else [Literal(indent, lead, parts[0] + " ", false, 0)] + Emit(parts[1..], indent, "", trail)
  }

  function WidthOf(limit: int, blk: seq<Line>): Width
    requires blk != [] && blk[0].Literal?
  {
    Width(limit, blk[0].indent, |blk[0].lead|)
  }

  function Refilled(limit: int, blk: seq<Line>): seq<Line>
    requires blk != [] && blk[0].Literal?
  {
    var parts := FillFrom(WidthOf(limit, blk), Split(BodyOf(blk)), "", true);
    Emit(parts, blk[0].indent, blk[0].lead, LastTrail(blk))
  }

  predicate LastTrail(blk: seq<Line>)
    requires blk != []
  {
    blk[|blk| - 1].Literal? && blk[|blk| - 1].trail
  }

  lemma BodyStep(blk: seq<Line>, i: nat, body: string)
    requires i < |blk| && blk[i].Literal?
    ensures body + BodyOf(blk[i..]) == (body + blk[i].body) + BodyOf(blk[i + 1..])
  {
    assert blk[i..][1..] == blk[i + 1..];
    assert (body + blk[i].body) + BodyOf(blk[i + 1..]) == body + (blk[i].body + BodyOf(blk[i + 1..]));
  }

  method RewrapBlock(limit: int, blk: seq<Line>) returns (r: Option<seq<Line>>)
    requires IsBlock(blk)
    ensures r == if OneIndent(blk) then Some(Refilled(limit, blk)) else None
  {
    var indent, lead, body := blk[0].indent, blk[0].lead, blk[0].body;
    assert BodyOf(blk) == body + BodyOf(blk[1..]);
    for i := 1 to |blk|
      invariant forall k :: 1 <= k < i ==> blk[k].Literal? && blk[k].indent == indent
      invariant body + BodyOf(blk[i..]) == BodyOf(blk)
    {
      assert Continues(blk[i - 1], blk[i]);
      if blk[i].indent != indent {
        return None;
      }
      BodyStep(blk, i, body);
      body := body + blk[i].body;
    }
    assert blk[|blk|..] == [] && body + "" == body;
    var parts := Fill(Width(limit, indent, |lead|), body);
    var lines := EmitLines(parts, indent, lead, LastTrail(blk));
    return Some(lines);
  }

  lemma EmitNext(parts: seq<string>, i: nat, indent: nat, prefix: string, trail: bool, out: seq<Line>)
    requires i < |parts|
    ensures var last := i == |parts| - 1;
      out + Emit(parts[i..], indent, prefix, trail)
        == (out + [Literal(indent, prefix, if last then parts[i] else parts[i] + " ", last && trail, 0)])
          + Emit(parts[i + 1..], indent, "", trail)
  {
    assert parts[i..][1..] == parts[i + 1..];
    Assoc(out, [Emit(parts[i..], indent, prefix, trail)[0]], Emit(parts[i + 1..], indent, "", trail));
  }

  method EmitLines(parts: seq<string>, indent: nat, lead: string, trail: bool) returns (out: seq<Line>)
    ensures out == Emit(parts, indent, lead, trail)
  {
    out := [];
    for i := 0 to |parts|
      invariant out + Emit(parts[i..], indent, if i == 0 then lead else "", trail) == Emit(parts, indent, lead, trail)
    {
      var last := i == |parts| - 1;
      var text := if last then parts[i] else parts[i] + " ";
      var prefix := if i == 0 then lead else "";
      var line := Literal(indent, prefix, text, last && trail, 0);
      EmitNext(parts, i, indent, prefix, trail, out);
      out := out + [line];
    }
  }

  lemma {:induction false} EmitIsBlock(parts: seq<string>, indent: nat, lead: string, trail: bool)
    requires parts != []
    ensures var out := Emit(parts, indent, lead, trail);
      && IsBlock(out) && out[0].lead == lead && out[0].indent == indent && LastTrail(out) == trail
      && BodyOf(out) == Join(parts) && OneIndent(out)
  {
    var out := Emit(parts, indent, lead, trail);
    if |parts| == 1 {
      assert out[1..] == [] && parts == [parts[0]];
      assert BodyOf(out) == parts[0] + "";
    } else {
      EmitIsBlock(parts[1..], indent, "", trail);
      var tail := Emit(parts[1..], indent, "", trail);
      assert out[1..] == tail && parts == [parts[0]] + parts[1..];
      JoinCons(parts[0], parts[1..]);
      forall i, j | 0 <= i && j == i + 1 && j < |out| ensures Continues(out[i], out[j]) {
        if i > 0 { assert Continues(tail[i - 1], tail[j - 1]); }
      }
      forall i | 1 <= i < |out| ensures out[i].Literal? && out[i].indent == indent {
        if i > 1 { assert out[i] == tail[i - 1]; }
      }
    }
  }

  predicate OneWord(body: string) {
    NoSpace(body) || (body[|body| - 1] == ' ' && NoSpace(body[..|body| - 1]))
  }

  /** A line that keeps the limit, or a literal that holds one word. */
  predicate LineFits(limit: int, l: Line) {
    Len(l) <= limit || (l.Literal? && OneWord(l.body))
  }

  lemma {:induction false} EmitFits(w: Width, parts: seq<string>, lead: string, trail: bool, first: bool)
    requires |lead| == if first then w.lead else 0
    requires forall k :: 0 <= k < |parts| ==> Fits(w, parts[k], first && k == 0)
    ensures forall k :: 0 <= k < |Emit(parts, w.indent, lead, trail)| ==>
      LineFits(w.limit, Emit(parts, w.indent, lead, trail)[k])
  {
    if parts != [] {
      var l := Emit(parts, w.indent, lead, trail)[0];
      assert Fits(w, parts[0], first);
      assert LineFits(w.limit, l) by {
        if Len(l) > w.limit { assert NoSpace(parts[0]); }
      }
      if |parts| > 1 {
        forall k | 0 <= k < |parts[1..]| ensures Fits(w, parts[1..][k], false && k == 0) {
          assert Fits(w, parts[k + 1], first && k + 1 == 0);
        }
        EmitFits(w, parts[1..], "", trail, false);
      }
    }
  }

  /** The same literal text with the same layout, only cut into other lines. */
  ghost predicate SameText(a: seq<Line>, b: seq<Line>) {
    && IsBlock(a) && IsBlock(b)
    && a[0].indent == b[0].indent && a[0].lead == b[0].lead && LastTrail(a) == LastTrail(b)
    && BodyOf(a) == BodyOf(b)
  }

  predicate AllFit(limit: int, lines: seq<Line>) {
    forall k :: 0 <= k < |lines| ==> LineFits(limit, lines[k])
  }

  lemma RefilledFits(limit: int, blk: seq<Line>)
    requires IsBlock(blk)
    ensures AllFit(limit, Refilled(limit, blk))
  {
    var w := WidthOf(limit, blk);
    var words := Split(BodyOf(blk));
    SplitHasNoSpaces(BodyOf(blk));
    FillFits(w, words, "", true);
    EmitFits(w, FillFrom(w, words, "", true), blk[0].lead, LastTrail(blk), true);
  }

  lemma RefilledKeepsText(limit: int, blk: seq<Line>)
    requires IsBlock(blk)
    ensures SameText(blk, Refilled(limit, blk)) <==> LosesNothing(WidthOf(limit, blk), BodyOf(blk))
  {
    var lines := FillFrom(WidthOf(limit, blk), Split(BodyOf(blk)), "", true);
    TextKeptAtLimit(WidthOf(limit, blk), BodyOf(blk));
    if lines != [] { EmitIsBlock(lines, blk[0].indent, blk[0].lead, LastTrail(blk)); }
  }

  // ---- the file -------------------------------------------------------------------------

  /** The chunks of a file from line `i` on: its blocks, and every other line on its own. */
  function Chunks(lines: seq<Line>, i: nat): seq<seq<Line>>
    requires i <= |lines|
    decreases |lines| - i
  {
    if i == |lines| then [] else [lines[i..ChunkEnd(lines, i)]] + Chunks(lines, ChunkEnd(lines, i))
  }

  function ChunkEnd(lines: seq<Line>, i: nat): (j: nat)
    requires i < |lines|
    ensures i < j <= |lines|
  {
    i + if lines[i].Literal? then BlockSize(lines, i) else 1
  }

  /** The lines of the first `n` chunks. */
  function Lines(cs: seq<seq<Line>>, n: nat): seq<Line>
    requires n <= |cs|
  {
    if n == 0 then [] else Lines(cs, n - 1) + cs[n - 1]
  }

  predicate Rewrapped(limit: int, chunk: seq<Line>) {
    chunk != [] && chunk[0].Literal? && OverLong(limit, chunk) && OneIndent(chunk)
  }

  function Settle(limit: int, chunk: seq<Line>): seq<Line> {
    if Rewrapped(limit, chunk) then Refilled(limit, chunk) else chunk
  }

  function Map<T, U>(f: T -> U, s: seq<T>): (r: seq<U>)
    ensures |r| == |s| && forall k :: 0 <= k < |s| ==> r[k] == f(s[k])
  {
    seq(|s|, k requires 0 <= k < |s| => f(s[k]))
  }

  function Settler(limit: int): seq<Line> -> seq<Line> {
    c => Settle(limit, c)
  }

  function Settled(limit: int, cs: seq<seq<Line>>): seq<seq<Line>> {
    Map(Settler(limit), cs)
  }

  function RewrapAll(limit: int, lines: seq<Line>): seq<Line> {
    Lines(Settled(limit, Chunks(lines, 0)), |Chunks(lines, 0)|)
  }

  /** The numbers of the over-long lines of a chunk that cannot be rewrapped. */
  function Reported(limit: int, chunk: seq<Line>, from: nat): seq<nat> {
    if Rewrapped(limit, chunk) then [] else OverLongLines(limit, chunk, from, |chunk|)
  }

  function Unfixable(limit: int, cs: seq<seq<Line>>, n: nat): seq<nat>
    requires n <= |cs|
  {
    if n == 0 then [] else Unfixable(limit, cs, n - 1) + Reported(limit, cs[n - 1], |Lines(cs, n - 1)|)
  }

  /** The numbers of the over-long ones among the first `n` lines of a chunk. */
  function OverLongLines(limit: int, chunk: seq<Line>, from: nat, n: nat): seq<nat>
    requires n <= |chunk|
  {
    if n == 0 then []
    else OverLongLines(limit, chunk, from, n - 1) + if Len(chunk[n - 1]) > limit then [from + n] else []
  }

  method ListOverLong(limit: int, chunk: seq<Line>, from: nat) returns (numbers: seq<nat>)
    ensures numbers == OverLongLines(limit, chunk, from, |chunk|)
  {
    numbers := [];
    for k := 0 to |chunk|
      invariant numbers == OverLongLines(limit, chunk, from, k)
    {
      if Len(chunk[k]) > limit {
        numbers := numbers + [from + k + 1];
      }
    }
  }

  lemma {:induction false} OverLongListed(limit: int, chunk: seq<Line>, from: nat, m: nat, n: nat)
    requires m <= |chunk|
    ensures n in OverLongLines(limit, chunk, from, m) <==> from < n <= from + m && Len(chunk[n - from - 1]) > limit
  {
    if m > 0 { OverLongListed(limit, chunk, from, m - 1, n); }
  }

  lemma NoneListed(limit: int, chunk: seq<Line>, from: nat)
    ensures OverLongLines(limit, chunk, from, |chunk|) == [] <==> !OverLong(limit, chunk)
  {
    var numbers := OverLongLines(limit, chunk, from, |chunk|);
    if OverLong(limit, chunk) {
      var i :| 0 <= i < |chunk| && Len(chunk[i]) > limit;
      OverLongListed(limit, chunk, from, |chunk|, from + i + 1);
    } else if numbers != [] {
      OverLongListed(limit, chunk, from, |chunk|, numbers[0]);
      assert false;
    }
  }

  method FindBlock(lines: seq<Line>, i: nat) returns (j: nat)
    requires i < |lines| && lines[i].Literal?
    ensures j == i + BlockSize(lines, i)
    ensures i < j <= |lines| && forall k :: i <= k < j ==> lines[k].Literal?
    ensures forall k :: i <= k < j - 1 ==> !lines[k].trail
    ensures forall k :: i < k < j ==> lines[k].lead == ""
    ensures j < |lines| ==> lines[j - 1].trail || lines[j].Other? || lines[j].lead != ""
  {
    j := i + 1;
    while !lines[j - 1].trail && j < |lines|
      invariant i < j <= |lines| && lines[j - 1].Literal?
      invariant BlockSize(lines, i) == j - 1 - i + BlockSize(lines, j - 1)
      invariant forall k :: i <= k < j ==> lines[k].Literal?
      invariant forall k :: i <= k < j - 1 ==> !lines[k].trail
      invariant forall k :: i < k < j ==> lines[k].lead == ""
      decreases |lines| - j
    {
      if lines[j].Other? || lines[j].lead != "" {
        break;
      }
      j := j + 1;
    }
  }

  method FindChunk(lines: seq<Line>, i: nat) returns (j: nat)
    requires i < |lines|
    ensures j == ChunkEnd(lines, i)
  {
    j := i + 1;
    if lines[i].Literal? {
      j := FindBlock(lines, i);
    }
  }

  /** One chunk: what is put out for it, and the lines to report if it is not rewrapped. */
  method RewrapChunk(limit: int, chunk: seq<Line>, from: nat)
    returns (settled: seq<Line>, changed: bool, numbers: seq<nat>)
    requires IsChunk(chunk)
    ensures settled == Settler(limit)(chunk) && (!changed ==> settled == chunk)
    ensures numbers == Reported(limit, chunk, from)
  {
    settled, changed := chunk, false;
    numbers := ListOverLong(limit, chunk, from);
    NoneListed(limit, chunk, from);
    if chunk[0].Literal? && numbers != [] {
      var replaced := RewrapBlock(limit, chunk);
      if replaced.Some? {
        settled, changed, numbers := replaced.value, true, [];
      }
    }
  }

  ghost predicate IsChunk(c: seq<Line>) {
    c != [] && (if c[0].Literal? then IsBlock(c) else |c| == 1)
  }

  lemma ChunkAt(lines: seq<Line>, i: nat)
    requires i < |lines|
    ensures IsChunk(lines[i..ChunkEnd(lines, i)]) && EndsAt(lines, ChunkEnd(lines, i))
  {
    var j := ChunkEnd(lines, i);
    if lines[i].Literal? {
      BlockSizeIs(lines, i, j);
      var blk := lines[i..j];
      forall k, l | 0 <= k && l == k + 1 && l < |blk| ensures Continues(blk[k], blk[l]) {
        assert Continues(lines[i + k], lines[i + l]);
      }
    }
  }

  lemma {:induction false} LinesOfPrefix(cs: seq<seq<Line>>, ds: seq<seq<Line>>, n: nat)
    requires n <= |cs| && n <= |ds| && cs[..n] == ds[..n]
    ensures Lines(cs, n) == Lines(ds, n)
  {
    if n > 0 {
      assert cs[..n][..n - 1] == ds[..n][..n - 1] && cs[..n][n - 1] == ds[..n][n - 1];
      assert cs[..n - 1] == cs[..n][..n - 1] && ds[..n - 1] == ds[..n][..n - 1];
      LinesOfPrefix(cs, ds, n - 1);
    }
  }

  lemma {:induction false} UnfixableOfPrefix(limit: int, cs: seq<seq<Line>>, ds: seq<seq<Line>>, n: nat)
    requires n <= |cs| && n <= |ds| && cs[..n] == ds[..n]
    ensures Unfixable(limit, cs, n) == Unfixable(limit, ds, n)
  {
    if n > 0 {
      assert cs[..n][..n - 1] == ds[..n][..n - 1] && cs[..n][n - 1] == ds[..n][n - 1];
      assert cs[..n - 1] == cs[..n][..n - 1] && ds[..n - 1] == ds[..n][..n - 1];
      UnfixableOfPrefix(limit, cs, ds, n - 1);
      LinesOfPrefix(cs, ds, n - 1);
    }
  }

  /** `seen` are the chunks before line `i`. */
  ghost predicate Cut(lines: seq<Line>, i: nat, seen: seq<seq<Line>>)
    requires i <= |lines|
  {
    seen + Chunks(lines, i) == Chunks(lines, 0) && Lines(seen, |seen|) == lines[..i]
  }

  lemma LinesSnoc(cs: seq<seq<Line>>, c: seq<Line>)
    ensures Lines(cs + [c], |cs| + 1) == Lines(cs, |cs|) + c
  {
    assert (cs + [c])[..|cs|] == cs[..|cs|];
    LinesOfPrefix(cs + [c], cs, |cs|);
  }

  lemma MapSnoc<T, U>(f: T -> U, s: seq<T>, x: T)
    ensures Map(f, s + [x]) == Map(f, s) + [f(x)]
  {
  }

  lemma SettledSnoc(limit: int, cs: seq<seq<Line>>, c: seq<Line>)
    ensures Lines(Settled(limit, cs + [c]), |cs| + 1) == Lines(Settled(limit, cs), |cs|) + Settler(limit)(c)
  {
    MapSnoc(Settler(limit), cs, c);
    LinesSnoc(Settled(limit, cs), Settler(limit)(c));
  }

  lemma UnfixableSnoc(limit: int, cs: seq<seq<Line>>, c: seq<Line>)
    ensures Unfixable(limit, cs + [c], |cs| + 1)
         == Unfixable(limit, cs, |cs|) + Reported(limit, c, |Lines(cs, |cs|)|)
  {
    assert (cs + [c])[..|cs|] == cs[..|cs|];
    LinesOfPrefix(cs + [c], cs, |cs|);
    UnfixableOfPrefix(limit, cs + [c], cs, |cs|);
  }

  /** `out` is what was put out for the chunks seen, and `numbers` what was reported of them. */
  ghost predicate Copied(limit: int, seen: seq<seq<Line>>, out: seq<Line>) {
    out == Lines(Settled(limit, seen), |seen|)
  }

  ghost predicate Listed(limit: int, seen: seq<seq<Line>>, numbers: seq<nat>) {
    numbers == Unfixable(limit, seen, |seen|)
  }

  lemma CutNext(lines: seq<Line>, i: nat, j: nat, seen: seq<seq<Line>>, chunk: seq<Line>)
    requires i < |lines| && Cut(lines, i, seen) && j == ChunkEnd(lines, i) && chunk == lines[i..j]
    ensures Cut(lines, j, seen + [chunk]) && |Lines(seen, |seen|)| == i
  {
    Assoc(seen, [chunk], Chunks(lines, j));
    LinesSnoc(seen, chunk);
    assert lines[..i] + lines[i..j] == lines[..j];
  }

  lemma CopyNext(limit: int, seen: seq<seq<Line>>, out: seq<Line>, chunk: seq<Line>, settled: seq<Line>)
    requires Copied(limit, seen, out) && settled == Settler(limit)(chunk)
    ensures Copied(limit, seen + [chunk], out + settled)
  {
    SettledSnoc(limit, seen, chunk);
  }

  lemma ListNext(limit: int, seen: seq<seq<Line>>, numbers: seq<nat>, chunk: seq<Line>, from: nat, more: seq<nat>)
    requires Listed(limit, seen, numbers) && from == |Lines(seen, |seen|)| && more == Reported(limit, chunk, from)
    ensures Listed(limit, seen + [chunk], numbers + more)
  {
    UnfixableSnoc(limit, seen, chunk);
  }

  ghost predicate Progress(limit: int, lines: seq<Line>, i: nat, seen: seq<seq<Line>>,
                           out: seq<Line>, numbers: seq<nat>)
    requires i <= |lines|
  {
    Cut(lines, i, seen) && Copied(limit, seen, out) && Listed(limit, seen, numbers)
  }

  lemma NextChunk(limit: int, lines: seq<Line>, i: nat, j: nat, seen: seq<seq<Line>>, out: seq<Line>,
                  numbers: seq<nat>, settled: seq<Line>, more: seq<nat>)
    requires i < |lines| && j == ChunkEnd(lines, i) && Progress(limit, lines, i, seen, out, numbers)
    requires settled == Settler(limit)(lines[i..j]) && more == Reported(limit, lines[i..j], i)
    ensures Progress(limit, lines, j, seen + [lines[i..j]], out + settled, numbers + more)
    ensures lines[..i] + lines[i..j] == lines[..j]
  {
    var chunk := lines[i..j];
    CutNext(lines, i, j, seen, chunk);
    CopyNext(limit, seen, out, chunk, settled);
    ListNext(limit, seen, numbers, chunk, i, more);
  }

  lemma AllSeen(limit: int, lines: seq<Line>, i: nat, seen: seq<seq<Line>>, out: seq<Line>, numbers: seq<nat>)
    requires i == |lines| && Progress(limit, lines, i, seen, out, numbers)
    ensures out == RewrapAll(limit, lines) && lines[..i] == lines
    ensures numbers == Unfixable(limit, Chunks(lines, 0), |Chunks(lines, 0)|)
  {
    assert seen + [] == seen;
  }

  /** Only if some block was rewrapped is the file written; otherwise it is left as it is. */
  method RewrapLines(limit: int, lines: seq<Line>)
    returns (file: seq<Line>, rewrapped: nat, unfixable: seq<nat>)
    ensures file == RewrapAll(limit, lines)
    ensures unfixable == Unfixable(limit, Chunks(lines, 0), |Chunks(lines, 0)|)
    ensures rewrapped == 0 ==> file == lines
  {
    var out := [];
    rewrapped, unfixable := 0, [];
    ghost var seen := [];
    var i := 0;
    while i < |lines|
      invariant 0 <= i <= |lines|
      invariant Progress(limit, lines, i, seen, out, unfixable)
      invariant rewrapped == 0 ==> out == lines[..i]
      decreases |lines| - i
    {
      var j := FindChunk(lines, i);
      ChunkAt(lines, i);
      var settled, changed, numbers := RewrapChunk(limit, lines[i..j], i);
      NextChunk(limit, lines, i, j, seen, out, unfixable, settled, numbers);
      seen := seen + [lines[i..j]];
      out := out + settled;
      unfixable := unfixable + numbers;
      if changed {
        rewrapped := rewrapped + 1;
      }
      i := j;
    }
    AllSeen(limit, lines, i, seen, out, unfixable);
    file := if rewrapped > 0 then out else lines;
  }

  // ---- chunks ---------------------------------------------------------------------------

  /** `c` cannot go on in `d`. */
  ghost predicate Apart(c: seq<Line>, d: seq<Line>) {
    c != [] && d != [] ==> !Continues(c[|c| - 1], d[0])
  }

  /** A list of chunks none of which could be longer. */
  ghost predicate Chunked(cs: seq<seq<Line>>) {
    && (forall k :: 0 <= k < |cs| ==> IsChunk(cs[k]))
    && (forall k, l :: 0 <= k && l == k + 1 && l < |cs| ==> Apart(cs[k], cs[l]))
  }

  lemma {:induction false} ChunksAreChunked(lines: seq<Line>, i: nat)
    requires i <= |lines|
    ensures Chunked(Chunks(lines, i))
    ensures i < |lines| ==> Chunks(lines, i) != [] && Chunks(lines, i)[0] != [] && Chunks(lines, i)[0][0] == lines[i]
    decreases |lines| - i
  {
    if i < |lines| {
      var j := ChunkEnd(lines, i);
      var cs, rest := Chunks(lines, i), Chunks(lines, j);
      ChunkAt(lines, i);
      ChunksAreChunked(lines, j);
      assert cs == [lines[i..j]] + rest;
      forall k, l | 0 <= k && l == k + 1 && l < |cs| ensures Apart(cs[k], cs[l]) {
        if k > 0 { assert Apart(rest[k - 1], rest[l - 1]); }
      }
    }
  }

  lemma {:induction false} LinesGrow(cs: seq<seq<Line>>, k: nat, m: nat)
    requires k <= m <= |cs|
    ensures |Lines(cs, k)| <= |Lines(cs, m)| && Lines(cs, k) == Lines(cs, m)[..|Lines(cs, k)|]
  {
    if k < m { LinesGrow(cs, k, m - 1); }
  }

  /** Chunk `k` stands in the lines where the chunks before it end. */
  lemma ChunkStandsAt(cs: seq<seq<Line>>, k: nat)
    requires k < |cs|
    ensures var all, i := Lines(cs, |cs|), |Lines(cs, k)|;
      i + |cs[k]| == |Lines(cs, k + 1)| <= |all| && all[i..i + |cs[k]|] == cs[k]
  {
    LinesGrow(cs, k + 1, |cs|);
    assert Lines(cs, k + 1) == Lines(cs, k) + cs[k];
    var all, i, j := Lines(cs, |cs|), |Lines(cs, k)|, |Lines(cs, k + 1)|;
    assert all[i..j] == all[..j][i..];
  }

  /** The lines of chunks that could not be longer are cut into exactly these chunks again. */
  lemma {:induction false} ChunksOfLines(cs: seq<seq<Line>>, k: nat)
    requires Chunked(cs) && k <= |cs|
    ensures |Lines(cs, k)| <= |Lines(cs, |cs|)|
    ensures Chunks(Lines(cs, |cs|), |Lines(cs, k)|) == cs[k..]
    decreases |cs| - k
  {
    LinesGrow(cs, k, |cs|);
    if k < |cs| {
      ChunksOfLines(cs, k + 1);
      FirstChunkIs(cs, k);
      Suffix(cs, k);
    } else {
      assert cs[k..] == [];
    }
  }

  lemma Suffix<T>(s: seq<T>, k: nat)
    requires k < |s|
    ensures s[k..] == [s[k]] + s[k + 1..]
  {
  }

  lemma FirstChunkIs(cs: seq<seq<Line>>, k: nat)
    requires Chunked(cs) && k < |cs|
    ensures |Lines(cs, k + 1)| <= |Lines(cs, |cs|)| && |Lines(cs, k)| < |Lines(cs, |cs|)|
    ensures Chunks(Lines(cs, |cs|), |Lines(cs, k)|) == [cs[k]] + Chunks(Lines(cs, |cs|), |Lines(cs, k + 1)|)
  {
    ChunkStandsAt(cs, k);
    ChunkEndsThere(cs, k);
  }

  lemma BlockRunsOn(all: seq<Line>, i: nat, c: seq<Line>)
    requires IsBlock(c) && i + |c| <= |all| && all[i..i + |c|] == c
    ensures RunsOn(all, i, i + |c|)
  {
    forall m, l | i <= m && l == m + 1 && l < i + |c| ensures Continues(all[m], all[l]) {
      assert c[m - i] == all[m] && c[l - i] == all[l] && Continues(c[m - i], c[l - i]);
    }
  }

  lemma ChunkEndsThere(cs: seq<seq<Line>>, k: nat)
    requires Chunked(cs) && k < |cs|
    ensures |Lines(cs, k)| < |Lines(cs, |cs|)|
    ensures ChunkEnd(Lines(cs, |cs|), |Lines(cs, k)|) == |Lines(cs, k + 1)|
  {
    var all, i, j := Lines(cs, |cs|), |Lines(cs, k)|, |Lines(cs, k + 1)|;
    ChunkStandsAt(cs, k);
    var c := cs[k];
    assert IsChunk(c) && all[i] == c[0] && all[j - 1] == c[|c| - 1];
    if c[0].Literal? {
      BlockRunsOn(all, i, c);
      if k + 1 < |cs| {
        ChunkStandsAt(cs, k + 1);
        assert IsChunk(cs[k + 1]) && all[j] == cs[k + 1][0] && Apart(cs[k], cs[k + 1]);
      }
      BlockSizeIs(all, i, j);
    }
  }

  // ---- which blocks are rewrapped -----------------------------------------------------------

  /** Some line of the chunk is longer than the limit. */
  ghost predicate HasLongLine(limit: int, chunk: seq<Line>) {
    exists l :: l in chunk && |Text(l)| > limit
  }

  /** The chunk is a block of literals that all have the same indent. */
  predicate Uniform(chunk: seq<Line>) {
    forall i, j :: 0 <= i < |chunk| && 0 <= j < |chunk| ==>
      chunk[i].Literal? && chunk[j].Literal? && chunk[i].indent == chunk[j].indent
  }

  lemma RewrappedExactly(limit: int, chunk: seq<Line>)
    requires IsChunk(chunk)
    ensures Rewrapped(limit, chunk) <==> HasLongLine(limit, chunk) && Uniform(chunk)
  {
    forall i | 0 <= i < |chunk| ensures Len(chunk[i]) == |Text(chunk[i])| { LenIsLength(chunk[i]); }
    if HasLongLine(limit, chunk) {
      var l :| l in chunk && |Text(l)| > limit;
      var i :| 0 <= i < |chunk| && chunk[i] == l;
      assert OverLong(limit, chunk);
    }
    if OverLong(limit, chunk) {
      var i :| 0 <= i < |chunk| && Len(chunk[i]) > limit;
      assert chunk[i] in chunk;
    }
    if Rewrapped(limit, chunk) {
      forall i | 0 <= i < |chunk| ensures chunk[i].Literal? && chunk[i].indent == chunk[0].indent {}
    }
  }

  /** A chunk is copied as it is unless it is a uniform block with a line that is too long. */
  lemma OtherChunksAreCopied(limit: int, chunk: seq<Line>)
    requires IsChunk(chunk) && !(HasLongLine(limit, chunk) && Uniform(chunk))
    ensures Settler(limit)(chunk) == chunk
  {
    RewrappedExactly(limit, chunk);
  }

  /** A number is reported exactly if its line is too long and lies in a chunk that is not uniform. */
  lemma {:induction false} ReportedExactly(limit: int, cs: seq<seq<Line>>, m: nat, n: nat)
    requires m <= |cs| && forall k :: 0 <= k < |cs| ==> IsChunk(cs[k])
    ensures n in Unfixable(limit, cs, m) <==> StuckBefore(limit, cs, m, n)
  {
    if m > 0 {
      ReportedExactly(limit, cs, m - 1, n);
      LastChunkReports(limit, cs, m, n);
      StuckOneMore(limit, cs, m, n);
    }
  }

  predicate StuckAt(limit: int, cs: seq<seq<Line>>, k: nat, n: nat) {
    k < |cs| && IsStuck(limit, cs[k], |Lines(cs, k)|, n)
  }

  predicate StuckBefore(limit: int, cs: seq<seq<Line>>, m: nat, n: nat) {
    exists k :: 0 <= k < m && StuckAt(limit, cs, k, n)
  }

  lemma StuckOneMore(limit: int, cs: seq<seq<Line>>, m: nat, n: nat)
    requires m > 0
    ensures StuckBefore(limit, cs, m, n) <==> StuckBefore(limit, cs, m - 1, n) || StuckAt(limit, cs, m - 1, n)
  {
  }

  lemma LastChunkReports(limit: int, cs: seq<seq<Line>>, m: nat, n: nat)
    requires 0 < m <= |cs| && IsChunk(cs[m - 1])
    ensures n in Unfixable(limit, cs, m) <==> n in Unfixable(limit, cs, m - 1) || StuckAt(limit, cs, m - 1, n)
  {
    ReportedInChunkExactly(limit, cs[m - 1], |Lines(cs, m - 1)|, n);
  }

  /** Line `n` of the file is too long and lies in this chunk, which starts after `from` lines and is not uniform. */
  predicate IsStuck(limit: int, chunk: seq<Line>, from: nat, n: nat) {
    !Uniform(chunk) && from < n <= from + |chunk| && |Text(chunk[n - from - 1])| > limit
  }

  lemma ReportedInChunkExactly(limit: int, chunk: seq<Line>, from: nat, n: nat)
    requires IsChunk(chunk)
    ensures n in Reported(limit, chunk, from) <==> IsStuck(limit, chunk, from, n)
  {
    OverLongListed(limit, chunk, from, |chunk|, n);
    RewrappedExactly(limit, chunk);
    if from < n <= from + |chunk| {
      LenIsLength(chunk[n - from - 1]);
      assert chunk[n - from - 1] in chunk;
    }
  }

  // ---- what rewrapping keeps ------------------------------------------------------------

  /** No block that is rewrapped loses anything at an empty word. */
  predicate Clean(limit: int, cs: seq<seq<Line>>) {
    forall k :: 0 <= k < |cs| && Rewrapped(limit, cs[k]) ==> LosesNothing(WidthOf(limit, cs[k]), BodyOf(cs[k]))
  }

  /** A chunk is copied, or it is an over-long block and its text is cut into lines that fit. */
  ghost predicate Faithful(limit: int, a: seq<Line>, b: seq<Line>) {
    if Rewrapped(limit, a) then SameText(a, b) && AllFit(limit, b) else b == a
  }

  lemma SettleIsFaithful(limit: int, chunk: seq<Line>)
    requires IsChunk(chunk) && (Rewrapped(limit, chunk) ==> LosesNothing(WidthOf(limit, chunk), BodyOf(chunk)))
    ensures Faithful(limit, chunk, Settle(limit, chunk)) && IsChunk(Settle(limit, chunk))
  {
    if Rewrapped(limit, chunk) {
      RefilledKeepsText(limit, chunk);
      RefilledFits(limit, chunk);
    }
  }

  lemma LastLiteral(blk: seq<Line>)
    requires IsBlock(blk)
    ensures blk[|blk| - 1].Literal? && (blk[|blk| - 1].trail <==> LastTrail(blk))
  {
    if |blk| > 1 { assert Continues(blk[|blk| - 2], blk[|blk| - 1]); }
  }

  /** Neither end of a chunk changes in a way that matters to its neighbours. */
  lemma NeighboursStayApart(limit: int, a: seq<Line>, b: seq<Line>, c: seq<Line>, d: seq<Line>)
    requires IsChunk(a) && IsChunk(b) && Faithful(limit, a, b)
    requires IsChunk(c) && IsChunk(d) && Faithful(limit, c, d)
    requires Apart(a, c)
    ensures Apart(b, d)
  {
    if a[0].Literal? { LastLiteral(a); }
    if b[0].Literal? { LastLiteral(b); }
  }

  /**
   The rewritten file has the same chunks in the same order: every line outside a rewrapped block
   is copied, and a rewrapped block has the same text, keyword, indent and trailing comma, cut
   into lines that keep the limit or hold a single word.
   */
  lemma FileIsFaithful(limit: int, lines: seq<Line>)
    requires Clean(limit, Chunks(lines, 0))
    ensures var cs, ds := Chunks(lines, 0), Chunks(RewrapAll(limit, lines), 0);
      |ds| == |cs| && forall k :: 0 <= k < |cs| ==> Faithful(limit, cs[k], ds[k])
  {
    var cs := Chunks(lines, 0);
    var ds := Settled(limit, cs);
    ChunksAreChunked(lines, 0);
    forall k | 0 <= k < |cs| ensures Faithful(limit, cs[k], ds[k]) && IsChunk(ds[k]) {
      SettleIsFaithful(limit, cs[k]);
    }
    forall k, l | 0 <= k && l == k + 1 && l < |ds| ensures Apart(ds[k], ds[l]) {
      assert Apart(cs[k], cs[l]);
      NeighboursStayApart(limit, cs[k], ds[k], cs[l], ds[l]);
    }
    ChunksOfLines(ds, 0);
  }

  lemma {:induction false} AllLinesFit(limit: int, cs: seq<seq<Line>>, n: nat)
    requires n <= |cs| && forall k :: 0 <= k < n ==> AllFit(limit, cs[k])
    ensures AllFit(limit, Lines(cs, n))
  {
    if n > 0 { AllLinesFit(limit, cs, n - 1); }
  }

  /** When nothing is reported every line of the result keeps the limit or holds a single word. */
  lemma NothingReportedAllFit(limit: int, lines: seq<Line>)
    requires Unfixable(limit, Chunks(lines, 0), |Chunks(lines, 0)|) == []
    ensures AllFit(limit, RewrapAll(limit, lines))
  {
    var cs := Chunks(lines, 0);
    var ds := Settled(limit, cs);
    ChunksAreChunked(lines, 0);
    forall k | 0 <= k < |cs| ensures AllFit(limit, ds[k]) {
      if Rewrapped(limit, cs[k]) {
        RefilledFits(limit, cs[k]);
      } else {
        NoneOfChunk(limit, cs, |cs|, k);
        NoneListed(limit, cs[k], |Lines(cs, k)|);
      }
    }
    AllLinesFit(limit, ds, |ds|);
  }

  lemma {:induction false} NoneOfChunk(limit: int, cs: seq<seq<Line>>, m: nat, k: nat)
    requires k < m <= |cs| && Unfixable(limit, cs, m) == []
    ensures Reported(limit, cs[k], |Lines(cs, k)|) == []
  {
    UnfixableLast(limit, cs, m);
    if k < m - 1 { NoneOfChunk(limit, cs, m - 1, k); }
  }

  lemma UnfixableLast(limit: int, cs: seq<seq<Line>>, m: nat)
    requires 0 < m <= |cs|
    ensures Unfixable(limit, cs, m) == [] ==>
      Unfixable(limit, cs, m - 1) == [] && Reported(limit, cs[m - 1], |Lines(cs, m - 1)|) == []
  {
  }

  lemma ReportedInChunk(limit: int, chunk: seq<Line>, from: nat, n: nat)
    requires n in Reported(limit, chunk, from)
    ensures !Rewrapped(limit, chunk) && from < n <= from + |chunk| && Len(chunk[n - from - 1]) > limit
  {
    OverLongListed(limit, chunk, from, |chunk|, n);
  }

  predicate ReportedAt(limit: int, cs: seq<seq<Line>>, k: nat, n: nat) {
    k < |cs| && n in Reported(limit, cs[k], |Lines(cs, k)|)
  }

  lemma ReportedInLast(limit: int, cs: seq<seq<Line>>, m: nat, n: nat)
    requires m <= |cs| && n in Unfixable(limit, cs, m)
    ensures m > 0 && (n in Unfixable(limit, cs, m - 1) || ReportedAt(limit, cs, m - 1, n))
  {
  }

  lemma {:induction false} ReportedSomewhere(limit: int, cs: seq<seq<Line>>, m: nat, n: nat) returns (k: nat)
    requires m <= |cs| && n in Unfixable(limit, cs, m)
    ensures k < m && ReportedAt(limit, cs, k, n)
  {
    ReportedInLast(limit, cs, m, n);
    k := m - 1;
    if !ReportedAt(limit, cs, k, n) {
      k := ReportedSomewhere(limit, cs, k, n);
    }
  }

  /** Every reported number is that of an over-long line in a chunk that is not rewrapped. */
  lemma ReportedIsOverLong(limit: int, cs: seq<seq<Line>>, m: nat, n: nat) returns (k: nat)
    requires m <= |cs| && n in Unfixable(limit, cs, m)
    ensures k < m && !Rewrapped(limit, cs[k])
    ensures var from := |Lines(cs, k)|; from < n <= from + |cs[k]| && Len(cs[k][n - from - 1]) > limit
  {
    k := ReportedSomewhere(limit, cs, m, n);
    ReportedInChunk(limit, cs[k], |Lines(cs, k)|, n);
  }
}
