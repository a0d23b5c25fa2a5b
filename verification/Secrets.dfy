/**
 Secret scrubbing and substitution: two string rewrites meant to undo each other. `Replace` is
 Python's `str.replace`; `Substitute` is `re.sub` with the placeholder pattern.
 */
module Secrets {
  import opened Wrappers
  import opened Sorting

  datatype Secret = Secret(name: string, value: string)

  /** The registry is immutable: a name-to-value mapping and the order in which to scrub. */
  datatype Registry = Registry(secrets: map<string, string>, scrubOrder: seq<Secret>)

  const OPEN := "{{secret:"
  const CLOSE := "}}"

  function Placeholder(name: string): string {
    OPEN + name + CLOSE
  }

  // ---- construction ---------------------------------------------------------------------

  function Lookup(secrets: seq<Secret>): map<string, string> {
    if secrets == [] then map[]
    else Lookup(secrets[..|secrets| - 1])[secrets[|secrets| - 1].name := secrets[|secrets| - 1].value]
  }

  function LongestFirst(secrets: seq<Secret>): seq<Secret> {
    SortBy(secrets, (s: Secret) => -|s.value|)
  }

  /** The dictionary arrives as its items in insertion order; an empty value is refused. */
  function Create(secrets: seq<Secret>): Result<Registry, string> {
    if exists i :: 0 <= i < |secrets| && secrets[i].value == "" then
      Failure("empty value")
    else
      Success(Registry(Lookup(secrets), LongestFirst(secrets)))
  }

  // ---- str.replace and re.sub -----------------------------------------------------------

  /** Every leftmost non-overlapping occurrence of `was` replaced. */
  function Replace(t: string, was: string, repl: string): string
    requires was != ""
  {
    if t == "" then ""
    else if was <= t then repl + Replace(t[|was|..], was, repl)
    else [t[0]] + Replace(t[1..], was, repl)
  }

  predicate IsNameChar(c: char) {
    'A' <= c <= 'Z' || 'a' <= c <= 'z' || '0' <= c <= '9' || c == '_' || c == '-'
  }

  predicate IsName(s: string) {
    s != "" && forall c :: c in s ==> IsNameChar(c)
  }

  /** The length of the longest run of name characters at the start. */
  function NameRun(t: string): (n: nat)
    ensures n <= |t|
  {
    if t != "" && IsNameChar(t[0]) then 1 + NameRun(t[1..]) else 0
  }

  /** The name in a placeholder that starts the text, if there is one. */
  function MatchAt(t: string): (name: Option<string>)
    ensures name.Some? ==> |Placeholder(name.value)| <= |t|
  {
    if !(OPEN <= t) then None
    else
      var rest := t[|OPEN|..];
      var n := NameRun(rest);
      if n > 0 && CLOSE <= rest[n..] then Some(rest[..n]) else None
  }

  function Substitute(secrets: map<string, string>, t: string): string
    decreases |t|
  {
    if t == "" then ""
    else
      match MatchAt(t)
      case Some(name) =>
        (if name in secrets then secrets[name] else t[..|Placeholder(name)|])
        + Substitute(secrets, t[|Placeholder(name)|..])
      case None => [t[0]] + Substitute(secrets, t[1..])
  }

  function ScrubAll(order: seq<Secret>, t: string): string
    requires forall s :: s in order ==> s.value != ""
  {
    if order == [] then t
    else ScrubAll(order[1..], Replace(t, order[0].value, Placeholder(order[0].name)))
  }

  method Scrub(registry: Registry, input: string) returns (text: string)
    requires forall s :: s in registry.scrubOrder ==> s.value != ""
    ensures text == ScrubAll(registry.scrubOrder, input)
  {
    text := input;
    var order := registry.scrubOrder;
    for i := 0 to |order|
      invariant ScrubAll(order[i..], text) == ScrubAll(order, input)
    {
      var Secret(name, value) := order[i];
      assert order[i..][0] == order[i] && order[i..][1..] == order[i + 1..];
      text := Replace(text, value, Placeholder(name));
    }
  }

  // ---- occurrences ----------------------------------------------------------------------

  ghost predicate Contains(t: string, v: string) {
    exists i :: 0 <= i <= |t| && v <= t[i..]
  }

  predicate BraceFree(s: string) {
    '{' !in s && '}' !in s
  }

  lemma ContainsTail(t: string, v: string)
    requires t != ""
    ensures Contains(t, v) <==> v <= t || Contains(t[1..], v)
  {
    if v <= t { assert v <= t[0..]; }
    if Contains(t[1..], v) {
      var i :| 0 <= i <= |t[1..]| && v <= t[1..][i..];
      assert t[1..][i..] == t[i + 1..];
    }
    if Contains(t, v) {
      var i :| 0 <= i <= |t| && v <= t[i..];
      if i > 0 { assert t[i..] == t[1..][i - 1..]; } else { assert t[i..] == t; }
    }
  }

  lemma {:induction false} ReplaceAbsent(t: string, v: string, repl: string)
    requires v != "" && !Contains(t, v)
    ensures Replace(t, v, repl) == t
  {
    if t != "" {
      ContainsTail(t, v);
      ReplaceAbsent(t[1..], v, repl);
    }
  }

  /** An occurrence of `v` cannot reach across a character that `v` does not have. */
  lemma PrefixStopsAtBarrier(a: string, c: char, b: string, v: string)
    requires c !in v
    ensures v <= a + [c] + b <==> v <= a
  {
    var t := a + [c] + b;
    forall k | |a| < k <= |t| ensures c in t[..k] {
      assert t[..k][|a|] == c;
    }
    if v <= t {
      assert v == t[..|v|];
    }
  }

  lemma {:induction false} ReplaceAroundBarrier(a: string, c: char, b: string, v: string, repl: string)
    requires v != "" && c !in v
    ensures Replace(a + [c] + b, v, repl) == Replace(a, v, repl) + [c] + Replace(b, v, repl)
    decreases |a|
  {
    var t := a + [c] + b;
    PrefixStopsAtBarrier(a, c, b, v);
    if a == "" {
      assert t[1..] == b;
    } else if v <= a {
      assert t[|v|..] == a[|v|..] + [c] + b;
      ReplaceAroundBarrier(a[|v|..], c, b, v, repl);
    } else {
      assert t[1..] == a[1..] + [c] + b;
      ReplaceAroundBarrier(a[1..], c, b, v, repl);
    }
  }

  lemma {:induction false} ContainsAroundBarrier(a: string, c: char, b: string, v: string)
    requires v != "" && c !in v
    ensures Contains(a + [c] + b, v) <==> Contains(a, v) || Contains(b, v)
    decreases |a|
  {
    var t := a + [c] + b;
    PrefixStopsAtBarrier(a, c, b, v);
    ContainsTail(t, v);
    if a == "" {
      assert t[1..] == b;
    } else {
      assert t[1..] == a[1..] + [c] + b;
      ContainsTail(a, v);
      ContainsAroundBarrier(a[1..], c, b, v);
    }
  }
}
