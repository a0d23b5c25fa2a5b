/**
 What scrubbing and substitution promise together. A text whose braces all belong to
 placeholders is a `Doc`: brace-free literals separated by references. Scrubbing only ever
 splits literals, so it acts on the `Doc`; substitution expands the references.
 */
module SecretsRoundTrip {
  import opened Wrappers
  import opened Sorting
  import opened Secrets

  datatype Doc = End(lit: string) | Then(lit: string, name: string, rest: Doc)

  function Render(d: Doc): string {
    match d
    case End(s) => s
    case Then(s, n, rest) => s + Placeholder(n) + Render(rest)
  }

  function Expand(d: Doc, secrets: map<string, string>): string {
    match d
    case End(s) => s
    case Then(s, n, rest) => s + Resolve(n, secrets) + Expand(rest, secrets)
  }

  function Resolve(n: string, secrets: map<string, string>): string {
    if n in secrets then secrets[n] else Placeholder(n)
  }

  /** The literals have no braces and the references have names the pattern accepts. */
  ghost predicate Clean(d: Doc) {
    match d
    case End(s) => BraceFree(s)
    case Then(s, n, rest) => BraceFree(s) && IsName(n) && Clean(rest)
  }

  ghost predicate LitsFreeOf(d: Doc, v: string) {
    !Contains(d.lit, v) && (d.Then? ==> LitsFreeOf(d.rest, v))
  }

  ghost predicate RefersTo(d: Doc, n: string) {
    d.Then? && (d.name == n || RefersTo(d.rest, n))
  }

  // ---- what one replacement does to a document ------------------------------------------

  function Prepend(c: char, d: Doc): Doc {
    d.(lit := [c] + d.lit)
  }

  function Split(s: string, v: string, n: string): Doc
    requires v != ""
  {
    if s == "" then End("")
    else if v <= s then Then("", n, Split(s[|v|..], v, n))
    else Prepend(s[0], Split(s[1..], v, n))
  }

  function Append(d: Doc, n: string, e: Doc): Doc {
    match d
    case End(s) => Then(s, n, e)
    case Then(s, m, rest) => Then(s, m, Append(rest, n, e))
  }

  function SplitDoc(d: Doc, v: string, n: string): Doc
    requires v != ""
  {
    match d
    case End(s) => Split(s, v, n)
    case Then(s, m, rest) => Append(Split(s, v, n), m, SplitDoc(rest, v, n))
  }

  lemma {:induction false} SplitRenders(s: string, v: string, n: string)
    requires v != ""
    ensures Render(Split(s, v, n)) == Replace(s, v, Placeholder(n))
    decreases |s|
  {
    if s != "" {
      if v <= s {
        SplitRenders(s[|v|..], v, n);
        assert "" + Placeholder(n) == Placeholder(n);
      } else {
        SplitRenders(s[1..], v, n);
        var d := Split(s[1..], v, n);
        if d.Then? {
          assert ([s[0]] + d.lit) + Placeholder(d.name) + Render(d.rest)
              == [s[0]] + (d.lit + Placeholder(d.name) + Render(d.rest));
        }
      }
    }
  }

  lemma PrependExpands(c: char, d: Doc, secrets: map<string, string>)
    ensures Expand(Prepend(c, d), secrets) == [c] + Expand(d, secrets)
  {
    if d.Then? {
      Assoc([c], d.lit, Resolve(d.name, secrets));
      Assoc([c], d.lit + Resolve(d.name, secrets), Expand(d.rest, secrets));
    }
  }

  lemma ThenExpands(d: Doc, n: string, secrets: map<string, string>)
    requires n in secrets
    ensures Expand(Then("", n, d), secrets) == secrets[n] + Expand(d, secrets)
  {
  }

  lemma PrefixAndRest(s: string, v: string)
    requires v <= s
    ensures s == v + s[|v|..]
  {
  }

  lemma {:induction false} SplitExpands(s: string, v: string, n: string, secrets: map<string, string>)
    requires v != "" && n in secrets && secrets[n] == v
    ensures Expand(Split(s, v, n), secrets) == s
    decreases |s|
  {
    if s != "" {
      if v <= s {
        SplitExpands(s[|v|..], v, n, secrets);
        ThenExpands(Split(s[|v|..], v, n), n, secrets);
        PrefixAndRest(s, v);
      } else {
        SplitExpands(s[1..], v, n, secrets);
        PrependExpands(s[0], Split(s[1..], v, n), secrets);
      }
    }
  }

  /** Every literal of a split is free of `v`, and of whatever the whole text is free of. */
  lemma {:induction false} SplitLits(s: string, v: string, n: string)
    requires v != ""
    ensures Split(s, v, n).lit <= s
    ensures LitsFreeOf(Split(s, v, n), v)
    decreases |s|
  {
    if s != "" && v <= s {
      SplitLits(s[|v|..], v, n);
    } else if s != "" {
      SplitLits(s[1..], v, n);
      var lit := Split(s, v, n).lit;
      ContainsTail(lit, v);
      assert lit[1..] == Split(s[1..], v, n).lit;
    }
  }

  lemma ContainsInPart(t: string, part: string, w: string, i: nat)
    requires Contains(part, w) && i <= |t| && part <= t[i..]
    ensures Contains(t, w)
  {
    var k :| 0 <= k <= |part| && w <= part[k..];
    assert w <= t[i + k..];
  }

  lemma {:induction false} SplitKeepsFree(s: string, v: string, n: string, w: string)
    requires v != "" && !Contains(s, w)
    ensures LitsFreeOf(Split(s, v, n), w)
    decreases |s|
  {
    SplitLits(s, v, n);
    var lit := Split(s, v, n).lit;
    if Contains(lit, w) { ContainsInPart(s, lit, w, 0); }
    if s != "" {
      var k := if v <= s then |v| else 1;
      if Contains(s[k..], w) { ContainsInPart(s, s[k..], w, k); }
      SplitKeepsFree(s[k..], v, n, w);
    }
  }

  lemma {:induction false} SplitClean(s: string, v: string, n: string)
    requires v != "" && BraceFree(s) && IsName(n)
    ensures Clean(Split(s, v, n))
    decreases |s|
  {
    if s != "" {
      SplitClean(if v <= s then s[|v|..] else s[1..], v, n);
    }
  }

  lemma {:induction false} SplitRefers(s: string, v: string, n: string, m: string)
    requires v != "" && RefersTo(Split(s, v, n), m)
    ensures m == n && Contains(s, v)
    decreases |s|
  {
    if s != "" {
      ContainsTail(s, v);
      if !(v <= s) { SplitRefers(s[1..], v, n, m); }
      else if RefersTo(Split(s[|v|..], v, n), m) { SplitRefers(s[|v|..], v, n, m); }
    }
  }

  lemma {:induction false} AppendRenders(d: Doc, n: string, e: Doc)
    ensures Render(Append(d, n, e)) == Render(d) + Placeholder(n) + Render(e)
  {
    if d.Then? {
      AppendRenders(d.rest, n, e);
      assert d.lit + Placeholder(d.name) + (Render(d.rest) + Placeholder(n) + Render(e))
          == (d.lit + Placeholder(d.name) + Render(d.rest)) + Placeholder(n) + Render(e);
    }
  }

  lemma {:induction false} AppendExpands(d: Doc, n: string, e: Doc, secrets: map<string, string>)
    ensures Expand(Append(d, n, e), secrets)
         == Expand(d, secrets) + Resolve(n, secrets) + Expand(e, secrets)
  {
    if d.Then? {
      AppendExpands(d.rest, n, e, secrets);
      var x, y := Resolve(n, secrets), Resolve(d.name, secrets);
      var rest, tail := Expand(d.rest, secrets), Expand(e, secrets);
      assert d.lit + y + (rest + x + tail) == (d.lit + y + rest) + x + tail;
    }
  }

  lemma {:induction false} AppendClean(d: Doc, n: string, e: Doc)
    requires Clean(d) && IsName(n) && Clean(e)
    ensures Clean(Append(d, n, e))
  {
    if d.Then? { AppendClean(d.rest, n, e); }
  }

  lemma {:induction false} AppendKeepsFree(d: Doc, n: string, e: Doc, v: string)
    requires LitsFreeOf(d, v) && LitsFreeOf(e, v)
    ensures LitsFreeOf(Append(d, n, e), v)
  {
    if d.Then? { AppendKeepsFree(d.rest, n, e, v); }
  }

  lemma {:induction false} AppendRefers(d: Doc, n: string, e: Doc, m: string)
    requires RefersTo(Append(d, n, e), m)
    ensures RefersTo(d, m) || m == n || RefersTo(e, m)
  {
    if d.Then? && m != d.name { AppendRefers(d.rest, n, e, m); }
  }

  // ---- replacing in a rendered document -------------------------------------------------

  ghost predicate IsValue(v: string) {
    v != "" && BraceFree(v)
  }

  /** The value can occur inside a placeholder for `n`. */
  ghost predicate Clashes(n: string, v: string) {
    Contains("secret:" + n, v)
  }

  lemma Braced(a: string, n: string)
    ensures a + "{{" + ("secret:" + n) + "}}" == a + Placeholder(n)
  {
    assert "{{" + ("secret:" + n) + "}}" == Placeholder(n);
  }

  lemma ReplaceAroundBraces(a: string, c: char, b: string, v: string, repl: string)
    requires v != "" && c !in v
    ensures Replace(a + [c, c] + b, v, repl) == Replace(a, v, repl) + [c, c] + Replace(b, v, repl)
  {
    var t := [c] + b;
    assert a + [c, c] + b == a + [c] + t && t == "" + [c] + b;
    ReplaceAroundBarrier(a, c, t, v, repl);
    ReplaceAroundBarrier("", c, b, v, repl);
  }

  /** A replacement passes over a placeholder it does not clash with. */
  lemma ReplaceAroundPlaceholder(a: string, n: string, b: string, v: string, repl: string)
    requires IsValue(v)
    ensures Replace(a + Placeholder(n) + b, v, repl)
         == Replace(a, v, repl) + "{{" + Replace("secret:" + n, v, repl) + "}}" + Replace(b, v, repl)
  {
    var inner := "secret:" + n;
    var t := inner + ['}', '}'] + b;
    assert a + Placeholder(n) + b == a + ['{', '{'] + t by {
      assert Placeholder(n) == ['{', '{'] + inner + ['}', '}'];
    }
    ReplaceAroundBraces(a, '{', t, v, repl);
    ReplaceAroundBraces(inner, '}', b, v, repl);
    var x, y, z := Replace(a, v, repl), Replace(inner, v, repl), Replace(b, v, repl);
    assert x + "{{" + (y + "}}" + z) == x + "{{" + y + "}}" + z;
  }

  lemma {:induction false} ReplaceActsOnDoc(d: Doc, v: string, n: string)
    requires IsValue(v) && forall m :: RefersTo(d, m) ==> !Clashes(m, v)
    ensures Replace(Render(d), v, Placeholder(n)) == Render(SplitDoc(d, v, n))
  {
    SplitRenders(d.lit, v, n);
    if d.Then? {
      forall m | RefersTo(d.rest, m) ensures !Clashes(m, v) { assert RefersTo(d, m); }
      ReplaceActsOnDoc(d.rest, v, n);
      ReplaceAroundPlaceholder(d.lit, d.name, Render(d.rest), v, Placeholder(n));
      assert RefersTo(d, d.name);
      ReplaceAbsent("secret:" + d.name, v, Placeholder(n));
      AppendRenders(Split(d.lit, v, n), d.name, SplitDoc(d.rest, v, n));
      Braced(Replace(d.lit, v, Placeholder(n)), d.name);
    }
  }

  lemma {:induction false} SplitDocFacts(d: Doc, v: string, n: string, secrets: map<string, string>)
    requires v != "" && Clean(d) && IsName(n) && n in secrets && secrets[n] == v
    ensures Clean(SplitDoc(d, v, n)) && LitsFreeOf(SplitDoc(d, v, n), v)
    ensures Expand(SplitDoc(d, v, n), secrets) == Expand(d, secrets)
  {
    SplitClean(d.lit, v, n);
    SplitLits(d.lit, v, n);
    SplitExpands(d.lit, v, n, secrets);
    if d.Then? {
      var e, f := Split(d.lit, v, n), SplitDoc(d.rest, v, n);
      SplitDocFacts(d.rest, v, n, secrets);
      AppendClean(e, d.name, f);
      AppendKeepsFree(e, d.name, f, v);
      AppendExpands(e, d.name, f, secrets);
    }
  }

  lemma {:induction false} SplitDocKeepsFree(d: Doc, v: string, n: string, w: string)
    requires v != "" && LitsFreeOf(d, w)
    ensures LitsFreeOf(SplitDoc(d, v, n), w)
  {
    SplitKeepsFree(d.lit, v, n, w);
    if d.Then? {
      SplitDocKeepsFree(d.rest, v, n, w);
      AppendKeepsFree(Split(d.lit, v, n), d.name, SplitDoc(d.rest, v, n), w);
    }
  }

  /** A reference that a split introduces is to `n`, and only when a literal contained `v`. */
  lemma {:induction false} SplitDocRefers(d: Doc, v: string, n: string, m: string)
    requires v != "" && RefersTo(SplitDoc(d, v, n), m)
    ensures RefersTo(d, m) || (m == n && !LitsFreeOf(d, v))
  {
    if d.End? || RefersTo(Split(d.lit, v, n), m) {
      SplitRefers(d.lit, v, n, m);
    } else {
      AppendRefers(Split(d.lit, v, n), d.name, SplitDoc(d.rest, v, n), m);
      if m != d.name { SplitDocRefers(d.rest, v, n, m); }
    }
  }

  // ---- the reference pattern --------------------------------------------------------------

  const UPPER := "ABCDEFGHIJKLMNOPQRSTUVWXYZ"
  const LOWER := "abcdefghijklmnopqrstuvwxyz"
  const DIGITS := "0123456789"

  /** The characters that the pattern allows in a name. */
  const NAME_CHARS := UPPER + LOWER + DIGITS + "_-"

  /** One or more characters of the pattern. */
  ghost predicate FitsPattern(n: string) {
    n != "" && forall c :: c in n ==> c in NAME_CHARS
  }

  lemma UpperChars(c: char)
    ensures c in UPPER <==> 'A' <= c <= 'Z'
  {
  }

  lemma LowerChars(c: char)
    ensures c in LOWER <==> 'a' <= c <= 'z'
  {
  }

  lemma DigitChars(c: char)
    ensures c in DIGITS <==> '0' <= c <= '9'
  {
  }

  lemma NameChars(c: char)
    ensures IsNameChar(c) <==> c in NAME_CHARS
  {
    UpperChars(c);
    LowerChars(c);
    DigitChars(c);
    assert c in NAME_CHARS <==> c in UPPER || c in LOWER || c in DIGITS || c in "_-";
  }

  lemma PatternNames(n: string)
    ensures IsName(n) <==> FitsPattern(n)
  {
    forall c | c in n ensures IsNameChar(c) <==> c in NAME_CHARS { NameChars(c); }
  }

  /** A reference is replaced by the value of its secret, or stays as it is if there is none. */
  lemma SubstituteReference(secrets: map<string, string>, n: string, t: string)
    requires FitsPattern(n)
    ensures Substitute(secrets, "{{secret:" + n + "}}" + t)
         == (if n in secrets then secrets[n] else "{{secret:" + n + "}}") + Substitute(secrets, t)
  {
    PatternNames(n);
    SubstitutePlaceholder(secrets, n, t);
  }

  lemma {:induction false} NameRunIsName(t: string)
    ensures forall c :: c in t[..NameRun(t)] ==> IsNameChar(c)
  {
    if t != "" && IsNameChar(t[0]) {
      NameRunIsName(t[1..]);
      assert t[..NameRun(t)] == [t[0]] + t[1..][..NameRun(t[1..])];
    }
  }

  lemma MatchIsReference(t: string, n: string)
    requires MatchAt(t) == Some(n)
    ensures FitsPattern(n) && "{{secret:" + n + "}}" <= t
  {
    var rest := t[|OPEN|..];
    NameRunIsName(rest);
    PatternNames(n);
    assert t == OPEN + (n + (CLOSE + rest[|n|..][|CLOSE|..]));
  }

  /** Where no reference starts the text keeps its first character. */
  lemma SubstituteElsewhere(secrets: map<string, string>, t: string)
    requires forall n :: FitsPattern(n) ==> !("{{secret:" + n + "}}" <= t)
    ensures Substitute(secrets, t) == if t == "" then "" else [t[0]] + Substitute(secrets, t[1..])
  {
    if t != "" && MatchAt(t).Some? { MatchIsReference(t, MatchAt(t).value); }
  }

  // ---- the whole sequence of replacements -----------------------------------------------

  /** Conforming distinct names and brace-free non-empty values, scrubbed longest first. */
  ghost predicate Valid(r: Registry) {
    && (forall s :: s in r.scrubOrder ==>
          IsName(s.name) && IsValue(s.value) && s.name in r.secrets && r.secrets[s.name] == s.value)
    && Ascending(r.scrubOrder, (s: Secret) => -|s.value|)
  }

  lemma {:induction false} LookupFinds(secrets: seq<Secret>, i: nat)
    requires i < |secrets|
    requires forall j, k :: 0 <= j < k < |secrets| ==> secrets[j].name != secrets[k].name
    ensures secrets[i].name in Lookup(secrets) && Lookup(secrets)[secrets[i].name] == secrets[i].value
  {
    if i < |secrets| - 1 {
      LookupFinds(secrets[..|secrets| - 1], i);
    }
  }

  /**
   Creation fails exactly on an empty value, and otherwise keeps every secret under its name and
   scrubs all of them, longest value first. The registry is valid for a round trip exactly if
   every name fits the reference pattern and no value holds a brace.
   */
  lemma CreateKeepsSecrets(secrets: seq<Secret>)
    requires forall i, j :: 0 <= i < j < |secrets| ==> secrets[i].name != secrets[j].name
    ensures Create(secrets).Failure? <==> exists s :: s in secrets && s.value == ""
    ensures Create(secrets).Success? ==>
      var r := Create(secrets).value;
      && (forall s :: s in r.scrubOrder <==> s in secrets)
      && Ascending(r.scrubOrder, (s: Secret) => -|s.value|)
      && (forall s :: s in secrets ==> s.name in r.secrets && r.secrets[s.name] == s.value)
      && (Valid(r) <==> forall s :: s in secrets ==> FitsPattern(s.name) && '{' !in s.value && '}' !in s.value)
  {
    if Create(secrets).Failure? {
      var i :| 0 <= i < |secrets| && secrets[i].value == "";
      assert secrets[i] in secrets;
    } else {
      var key := (s: Secret) => -|s.value|;
      var r := Create(secrets).value;
      SortBySorts(secrets, key);
      SortByMembers(secrets, key);
      forall s | s in secrets ensures s.value != "" && s.name in r.secrets && r.secrets[s.name] == s.value {
        LookupFinds(secrets, Position(secrets, s));
        assert secrets[Position(secrets, s)] == s;
      }
      forall s | s in secrets ensures IsName(s.name) <==> FitsPattern(s.name) { PatternNames(s.name); }
    }
  }

  /** The first in scrub order among the secrets that share its value. */
  ghost predicate FirstOfValue(order: seq<Secret>, i: nat)
    requires i < |order|
  {
    forall k :: 0 <= k < i ==> order[k].value != order[i].value
  }

  /** No placeholder written at one step is damaged at a later one. */
  ghost predicate NoLaterClash(order: seq<Secret>) {
    forall i, j :: 0 <= i < j < |order| && FirstOfValue(order, i) ==> !Clashes(order[i].name, order[j].value)
  }

  /** The document after the first `i` replacements. */
  ghost predicate Stage(order: seq<Secret>, i: nat, d: Doc)
    requires i <= |order|
  {
    && Clean(d)
    && (forall k :: 0 <= k < i ==> LitsFreeOf(d, order[k].value))
    && (forall m, j :: RefersTo(d, m) && i <= j < |order| ==> !Clashes(m, order[j].value))
  }

  lemma NextStage(r: Registry, i: nat, d: Doc)
    requires Valid(r) && NoLaterClash(r.scrubOrder) && i < |r.scrubOrder| && Stage(r.scrubOrder, i, d)
    ensures var s := r.scrubOrder[i];
            var e := SplitDoc(d, s.value, s.name);
            && Stage(r.scrubOrder, i + 1, e)
            && Render(e) == Replace(Render(d), s.value, Placeholder(s.name))
            && Expand(e, r.secrets) == Expand(d, r.secrets)
            && (forall m :: RefersTo(e, m) ==>
                  RefersTo(d, m) || (m == s.name && FirstOfValue(r.scrubOrder, i)))
  {
    var order := r.scrubOrder;
    var Secret(n, v) := order[i];
    assert order[i] in order;
    var e := SplitDoc(d, v, n);
    SplitDocFacts(d, v, n, r.secrets);
    ReplaceActsOnDoc(d, v, n);
    NextLits(r, i, d);
    forall m | RefersTo(e, m) ensures RefersTo(d, m) || (m == n && FirstOfValue(order, i)) {
      SplitDocRefers(d, v, n, m);
    }
  }

  lemma NextLits(r: Registry, i: nat, d: Doc)
    requires Valid(r) && i < |r.scrubOrder| && Stage(r.scrubOrder, i, d)
    ensures var e := SplitDoc(d, r.scrubOrder[i].value, r.scrubOrder[i].name);
      forall k :: 0 <= k < i + 1 ==> LitsFreeOf(e, r.scrubOrder[k].value)
  {
    var order := r.scrubOrder;
    var Secret(n, v) := order[i];
    assert order[i] in order;
    SplitDocFacts(d, v, n, r.secrets);
    forall k | 0 <= k < i + 1 ensures LitsFreeOf(SplitDoc(d, v, n), order[k].value) {
      if k < i { SplitDocKeepsFree(d, v, n, order[k].value); }
    }
  }

  /** The text after the replacements from step `k` on. */
  ghost function ScrubFrom(r: Registry, k: nat, t: string): string
    requires Valid(r) && k <= |r.scrubOrder|
  {
    ScrubAll(r.scrubOrder[k..], t)
  }

  ghost function ReplaceAt(r: Registry, k: nat, t: string): string
    requires Valid(r) && k < |r.scrubOrder|
  {
    assert r.scrubOrder[k] in r.scrubOrder;
    Replace(t, r.scrubOrder[k].value, Placeholder(r.scrubOrder[k].name))
  }

  lemma ScrubStep(r: Registry, k: nat, t: string)
    requires Valid(r) && k < |r.scrubOrder|
    ensures ScrubFrom(r, k, t) == ScrubFrom(r, k + 1, ReplaceAt(r, k, t))
  {
    assert r.scrubOrder[k..][1..] == r.scrubOrder[k + 1..];
  }

  /** The document that the rest of the scrub order makes of `d`. */
  function ScrubDoc(order: seq<Secret>, d: Doc): Doc
    requires forall s :: s in order ==> s.value != ""
  {
    if order == [] then d
    else ScrubDoc(order[1..], SplitDoc(d, order[0].value, order[0].name))
  }

  lemma {:induction false} ScrubActsOnDoc(r: Registry, i: nat, d: Doc)
    requires Valid(r) && NoLaterClash(r.scrubOrder) && i <= |r.scrubOrder| && Stage(r.scrubOrder, i, d)
    ensures var e := ScrubDoc(r.scrubOrder[i..], d);
            && Stage(r.scrubOrder, |r.scrubOrder|, e)
            && Render(e) == ScrubAll(r.scrubOrder[i..], Render(d))
            && Expand(e, r.secrets) == Expand(d, r.secrets)
            && (forall m :: RefersTo(e, m) ==> RefersTo(d, m) || WritesName(r.scrubOrder, m))
    decreases |r.scrubOrder| - i
  {
    var order := r.scrubOrder;
    if i < |order| {
      var s := order[i];
      var e := SplitDoc(d, s.value, s.name);
      NextStage(r, i, d);
      ScrubActsOnDoc(r, i + 1, e);
      assert order[i..][0] == s && order[i..][1..] == order[i + 1..];
      forall m | RefersTo(e, m) ensures RefersTo(d, m) || WritesName(order, m) {
        assert m == s.name && FirstOfValue(order, i) ==> WritesName(order, m);
      }
    }
  }

  /** Scrubbing can write a placeholder for `m`. */
  ghost predicate WritesName(order: seq<Secret>, m: string) {
    exists i :: 0 <= i < |order| && FirstOfValue(order, i) && order[i].name == m
  }

  // ---- substitution undoes it -----------------------------------------------------------

  lemma {:induction false} NameRunOf(n: string, t: string)
    requires forall c :: c in n ==> IsNameChar(c)
    requires t != "" && !IsNameChar(t[0])
    ensures NameRun(n + t) == |n|
  {
    if n != "" {
      assert (n + t)[1..] == n[1..] + t;
      NameRunOf(n[1..], t);
    } else {
      assert n + t == t;
    }
  }

  lemma PlaceholderMatches(n: string, t: string)
    requires IsName(n)
    ensures MatchAt(Placeholder(n) + t) == Some(n)
  {
    var text := Placeholder(n) + t;
    assert text[|OPEN|..] == n + (CLOSE + t);
    NameRunOf(n, CLOSE + t);
    assert text[|OPEN|..][|n|..] == CLOSE + t;
  }

  lemma {:induction false} SubstituteSkips(secrets: map<string, string>, s: string, t: string)
    requires '{' !in s
    ensures Substitute(secrets, s + t) == s + Substitute(secrets, t)
    decreases |s|
  {
    if s != "" {
      assert (s + t)[0] == s[0] && (s + t)[1..] == s[1..] + t;
      assert !(OPEN <= s + t);
      SubstituteSkips(secrets, s[1..], t);
    } else {
      assert s + t == t;
    }
  }

  lemma SubstitutePlaceholder(secrets: map<string, string>, n: string, t: string)
    requires IsName(n)
    ensures Substitute(secrets, Placeholder(n) + t) == Resolve(n, secrets) + Substitute(secrets, t)
  {
    var text := Placeholder(n) + t;
    PlaceholderMatches(n, t);
    assert text[..|Placeholder(n)|] == Placeholder(n);
    assert text[|Placeholder(n)|..] == t;
  }

  lemma SubstituteChunk(secrets: map<string, string>, s: string, n: string, t: string, y: string)
    requires '{' !in s && IsName(n) && Substitute(secrets, t) == y
    ensures Substitute(secrets, s + Placeholder(n) + t) == s + Resolve(n, secrets) + y
  {
    var p, x := Placeholder(n), Resolve(n, secrets);
    Assoc(s, p, t);
    SubstituteSkips(secrets, s, p + t);
    SubstitutePlaceholder(secrets, n, t);
    Assoc(s, x, y);
  }

  lemma {:induction false} SubstituteExpands(secrets: map<string, string>, d: Doc)
    requires Clean(d)
    ensures Substitute(secrets, Render(d)) == Expand(d, secrets)
  {
    match d
    case End(s) =>
      SubstituteSkips(secrets, s, "");
      assert s + "" == s;
    case Then(s, n, rest) =>
      SubstituteExpands(secrets, rest);
      SubstituteChunk(secrets, s, n, Render(rest), Expand(rest, secrets));
  }

  /**
   Substitution gives back what scrubbing took away, on every text whose braces all belong to
   placeholders that no value clashes with. On a brace-free text that is the text itself.
   */
  lemma SubstituteAfterScrub(r: Registry, d: Doc)
    requires Valid(r) && NoLaterClash(r.scrubOrder) && Clean(d)
    requires forall m, j :: RefersTo(d, m) && 0 <= j < |r.scrubOrder| ==> !Clashes(m, r.scrubOrder[j].value)
    ensures Substitute(r.secrets, ScrubAll(r.scrubOrder, Render(d))) == Substitute(r.secrets, Render(d))
  {
    var e := ScrubDoc(r.scrubOrder[0..], d);
    ScrubActsOnDoc(r, 0, d);
    assert r.scrubOrder[0..] == r.scrubOrder;
    SubstituteExpands(r.secrets, e);
    SubstituteExpands(r.secrets, d);
  }

  /** With that, scrubbing a text, substituting and scrubbing again changes nothing. */
  lemma ScrubUndoesSubstitute(r: Registry, t: string)
    requires Valid(r) && NoLaterClash(r.scrubOrder) && BraceFree(t)
    ensures var scrubbed := ScrubAll(r.scrubOrder, t);
            ScrubAll(r.scrubOrder, Substitute(r.secrets, scrubbed)) == scrubbed
  {
    BraceFreeTextSurvives(r, t);
  }

  lemma BraceFreeTextSurvives(r: Registry, t: string)
    requires Valid(r) && NoLaterClash(r.scrubOrder) && BraceFree(t)
    ensures Substitute(r.secrets, ScrubAll(r.scrubOrder, t)) == t
  {
    SubstituteAfterScrub(r, End(t));
    SubstituteExpands(r.secrets, End(t));
  }

  // ---- nothing registered is left -------------------------------------------------------

  lemma ContainsAroundBraces(a: string, c: char, b: string, v: string)
    requires v != "" && c !in v
    ensures Contains(a + [c, c] + b, v) <==> Contains(a, v) || Contains(b, v)
  {
    var t := [c] + b;
    assert a + [c, c] + b == a + [c] + t && t == "" + [c] + b;
    ContainsAroundBarrier(a, c, t, v);
    ContainsAroundBarrier("", c, b, v);
  }

  /** Scrubbing acts separately on both sides of a doubled brace. */
  lemma {:induction false} ScrubAroundBraces(order: seq<Secret>, a: string, c: char, b: string)
    requires forall s :: s in order ==> s.value != "" && c !in s.value
    ensures ScrubAll(order, a + [c, c] + b) == ScrubAll(order, a) + [c, c] + ScrubAll(order, b)
  {
    if order != [] {
      var v, repl := order[0].value, Placeholder(order[0].name);
      ReplaceAroundBraces(a, c, b, v, repl);
      ScrubAroundBraces(order[1..], Replace(a, v, repl), c, Replace(b, v, repl));
    }
  }

  lemma {:induction false} ScrubNothing(order: seq<Secret>)
    requires forall s :: s in order ==> s.value != ""
    ensures ScrubAll(order, "") == ""
  {
    if order != [] { ScrubNothing(order[1..]); }
  }

  ghost predicate Leaves(order: seq<Secret>, t: string, v: string)
    requires forall s :: s in order ==> s.value != ""
  {
    Contains(ScrubAll(order, t), v)
  }

  /** A value left in a text around a placeholder is left in one of the three parts. */
  lemma LeftAroundPlaceholder(order: seq<Secret>, a: string, n: string, b: string, v: string)
    requires IsValue(v) && forall s :: s in order ==> s.value != "" && IsValue(s.value)
    ensures Leaves(order, a + Placeholder(n) + b, v) <==>
      Leaves(order, a, v) || Leaves(order, "secret:" + n, v) || Leaves(order, b, v)
  {
    var inner := "secret:" + n;
    var rest := inner + ['}', '}'] + b;
    assert a + Placeholder(n) + b == a + ['{', '{'] + rest by {
      assert Placeholder(n) == ['{', '{'] + inner + ['}', '}'];
    }
    ScrubAroundBraces(order, a, '{', rest);
    ScrubAroundBraces(order, inner, '}', b);
    ContainsAroundBraces(ScrubAll(order, a), '{', ScrubAll(order, rest), v);
    ContainsAroundBraces(ScrubAll(order, inner), '}', ScrubAll(order, b), v);
  }

  lemma LeftOfPlaceholder(order: seq<Secret>, n: string, v: string)
    requires IsValue(v) && forall s :: s in order ==> s.value != "" && IsValue(s.value)
    ensures Leaves(order, Placeholder(n), v) <==> Leaves(order, "secret:" + n, v)
  {
    LeftAroundPlaceholder(order, "", n, "", v);
    ScrubNothing(order);
    BetweenNothing("", Placeholder(n), "");
  }

  /** A value left in a document is left in one of its references (`None`) or literals. */
  lemma {:induction false} LeftInPart(order: seq<Secret>, d: Doc, v: string) returns (part: Option<string>)
    requires IsValue(v) && forall s :: s in order ==> s.value != "" && IsValue(s.value)
    requires Clean(d) && Leaves(order, Render(d), v)
    ensures part.None? ==> exists m :: RefersTo(d, m) && Leaves(order, Placeholder(m), v)
    ensures part.Some? ==> BraceFree(part.value) && Leaves(order, part.value, v)
    ensures part.Some? ==> forall w :: LitsFreeOf(d, w) ==> !Contains(part.value, w)
  {
    if d.End? || Leaves(order, d.lit, v) {
      part := Some(d.lit);
    } else {
      LeftAroundPlaceholder(order, d.lit, d.name, Render(d.rest), v);
      LeftOfPlaceholder(order, d.name, v);
      if Leaves(order, Placeholder(d.name), v) {
        assert RefersTo(d, d.name);
        part := None;
      } else {
        part := LeftInPart(order, d.rest, v);
        if part.None? {
          var m :| RefersTo(d.rest, m) && Leaves(order, Placeholder(m), v);
          assert RefersTo(d, m);
        }
      }
    }
  }

  /** The value is still there when the later values have been scrubbed out of the placeholder. */
  ghost predicate Reveals(r: Registry, i: nat, v: string)
    requires Valid(r) && i < |r.scrubOrder|
  {
    Contains(ScrubFrom(r, i + 1, Placeholder(r.scrubOrder[i].name)), v)
  }

  /** A value left from step `i` on is left by the placeholder of that step (`None`) or in a part. */
  lemma LeftAtStep(r: Registry, i: nat, t: string, w: string) returns (part: Option<string>)
    requires Valid(r) && i < |r.scrubOrder| && BraceFree(t) && IsValue(w) && Contains(ScrubFrom(r, i, t), w)
    ensures part.None? ==> Contains(t, r.scrubOrder[i].value) && Reveals(r, i, w)
    ensures part.Some? ==> BraceFree(part.value) && Contains(ScrubFrom(r, i + 1, part.value), w)
    ensures part.Some? ==> !Contains(part.value, r.scrubOrder[i].value)
    ensures part.Some? ==> forall x :: !Contains(t, x) ==> !Contains(part.value, x)
  {
    var Secret(n, v) := r.scrubOrder[i];
    assert r.scrubOrder[i] in r.scrubOrder;
    var later, d := r.scrubOrder[i + 1..], Split(t, v, n);
    ScrubStep(r, i, t);
    SplitRenders(t, v, n);
    SplitClean(t, v, n);
    part := LeftInPart(later, d, w);
    if part.None? {
      var m :| RefersTo(d, m) && Leaves(later, Placeholder(m), w);
      SplitRefers(t, v, n, m);
    } else {
      SplitLits(t, v, n);
      forall x | !Contains(t, x) ensures !Contains(part.value, x) { SplitKeepsFree(t, v, n, x); }
    }
  }

  /** A value left by scrubbing from step `i` on comes from a placeholder that was written. */
  lemma {:induction false} LeftByPlaceholder(r: Registry, i: nat, t: string, j: nat) returns (h: nat)
    requires Valid(r) && BraceFree(t) && i <= |r.scrubOrder| && j < |r.scrubOrder|
    requires forall k :: 0 <= k < i ==> !Contains(t, r.scrubOrder[k].value)
    requires Contains(ScrubFrom(r, i, t), r.scrubOrder[j].value)
    ensures h < |r.scrubOrder| && FirstOfValue(r.scrubOrder, h) && Reveals(r, h, r.scrubOrder[j].value)
    decreases |r.scrubOrder| - i
  {
    assert r.scrubOrder[j] in r.scrubOrder;
    var part := LeftAtStep(r, i, t, r.scrubOrder[j].value);
    if part.None? {
      h := i;
    } else {
      h := LeftByPlaceholder(r, i + 1, part.value, j);
    }
  }

  /** No registered value is left in any scrubbed text. */
  ghost predicate LeavesNothing(r: Registry)
    requires Valid(r)
  {
    forall t, j :: BraceFree(t) && 0 <= j < |r.scrubOrder| ==> !Leaves(r.scrubOrder, t, r.scrubOrder[j].value)
  }

  /**
   No brace-free text leaves a registered value behind exactly when no placeholder that can be
   written still holds one after the later replacements: only placeholders can reveal values.
   */
  lemma NothingLeftExactly(r: Registry)
    requires Valid(r)
    ensures LeavesNothing(r) <==>
      forall i, j :: 0 <= i < |r.scrubOrder| && FirstOfValue(r.scrubOrder, i) && 0 <= j < |r.scrubOrder| ==>
        !Reveals(r, i, r.scrubOrder[j].value)
  {
    var order := r.scrubOrder;
    assert order[0..] == order;
    if t, j :| BraceFree(t) && 0 <= j < |order| && Leaves(order, t, order[j].value) {
      var i := LeftByPlaceholder(r, 0, t, j);
    } else {
      forall i, j | 0 <= i < |order| && FirstOfValue(order, i) && 0 <= j < |order|
        ensures !Reveals(r, i, order[j].value)
      {
        ScrubbedValue(r, i);
        assert order[i] in order;
        assert !Leaves(order, order[i].value, order[j].value);
      }
    }
  }

  /**
   When no placeholder can be damaged, nothing is left exactly when no value occurs inside a
   placeholder that can be written, its own or another's.
   */
  lemma NothingLeftWithoutClash(r: Registry)
    requires Valid(r) && NoLaterClash(r.scrubOrder)
    ensures LeavesNothing(r) <==>
      forall i, j :: 0 <= i < |r.scrubOrder| && FirstOfValue(r.scrubOrder, i) && 0 <= j < |r.scrubOrder| ==>
        !Clashes(r.scrubOrder[i].name, r.scrubOrder[j].value)
  {
    var order := r.scrubOrder;
    NothingLeftExactly(r);
    forall i, j | 0 <= i < |order| && FirstOfValue(order, i) && 0 <= j < |order|
      ensures Reveals(r, i, order[j].value) <==> Clashes(order[i].name, order[j].value)
    {
      RevealsIffClashes(r, i, j);
    }
  }

  lemma RevealsIffClashes(r: Registry, i: nat, j: nat)
    requires Valid(r) && NoLaterClash(r.scrubOrder)
    requires i < |r.scrubOrder| && j < |r.scrubOrder| && FirstOfValue(r.scrubOrder, i)
    ensures Reveals(r, i, r.scrubOrder[j].value) <==> Clashes(r.scrubOrder[i].name, r.scrubOrder[j].value)
  {
    var order := r.scrubOrder;
    assert order[j] in order;
    LaterStepsKeepPlaceholder(r, i, i + 1);
    LeftOfPlaceholder([], order[i].name, order[j].value);
  }

  /** A value can be left: that of a secret "secret" is part of its own placeholder. */
  lemma OwnPlaceholderReveals(n: string)
    requires IsName(n)
    ensures var r := Registry(map[n := "secret"], [Secret(n, "secret")]);
            Valid(r) && NoLaterClash(r.scrubOrder) && !LeavesNothing(r)
  {
    var r := Registry(map[n := "secret"], [Secret(n, "secret")]);
    assert Clashes(n, "secret") by { assert "secret" <= ("secret:" + n)[0..]; }
    assert FirstOfValue(r.scrubOrder, 0);
    NothingLeftWithoutClash(r);
  }

  // ---- longest first ---------------------------------------------------------------------

  lemma ContainsNoLonger(t: string, v: string)
    requires Contains(t, v) && |t| <= |v|
    ensures t == v
  {
    var i :| 0 <= i <= |t| && v <= t[i..];
    assert t[0..] == t;
  }

  /** Steps before its own do not touch the text that is exactly one secret's value. */
  lemma {:induction false} EarlierStepsKeepValue(r: Registry, i: nat, k: nat)
    requires Valid(r) && k <= i < |r.scrubOrder| && FirstOfValue(r.scrubOrder, i)
    ensures var order := r.scrubOrder;
            ScrubFrom(r, k, order[i].value) == ScrubFrom(r, i + 1, Placeholder(order[i].name))
    decreases i - k
  {
    var order := r.scrubOrder;
    var v := order[i].value;
    ScrubStep(r, k, v);
    assert order[k] in order && order[i] in order;
    if k < i {
      if Contains(v, order[k].value) { ContainsNoLonger(v, order[k].value); }
      ReplaceAbsent(v, order[k].value, Placeholder(order[k].name));
      EarlierStepsKeepValue(r, i, k + 1);
    } else {
      ReplaceWhole(v, Placeholder(order[i].name));
    }
  }

  lemma ScrubbedValue(r: Registry, i: nat)
    requires Valid(r) && i < |r.scrubOrder| && FirstOfValue(r.scrubOrder, i)
    ensures ScrubAll(r.scrubOrder, r.scrubOrder[i].value)
         == ScrubFrom(r, i + 1, Placeholder(r.scrubOrder[i].name))
  {
    EarlierStepsKeepValue(r, i, 0);
    assert r.scrubOrder[0..] == r.scrubOrder;
  }

  lemma ReplaceWhole(v: string, repl: string)
    requires v != ""
    ensures Replace(v, v, repl) == repl
  {
    assert v[|v|..] == "";
  }

  /** A whole value is scrubbed as one unit even if shorter values occur inside it. */
  lemma WholeValueScrubbedAsOne(r: Registry, i: nat)
    requires Valid(r) && NoLaterClash(r.scrubOrder)
    requires i < |r.scrubOrder| && FirstOfValue(r.scrubOrder, i)
    ensures ScrubAll(r.scrubOrder, r.scrubOrder[i].value) == Placeholder(r.scrubOrder[i].name)
  {
    ScrubbedValue(r, i);
    LaterStepsKeepPlaceholder(r, i, i + 1);
  }

  lemma PlaceholderKept(n: string, v: string, repl: string)
    requires IsValue(v) && !Clashes(n, v)
    ensures Replace(Placeholder(n), v, repl) == Placeholder(n)
  {
    ReplaceInPlaceholder(n, v, repl);
    ReplaceAbsent("secret:" + n, v, repl);
    PlaceholderInBraces(n);
  }

  function InBraces(s: string): string {
    "{{" + (s + "}}")
  }

  lemma PlaceholderInBraces(n: string)
    ensures Placeholder(n) == InBraces("secret:" + n)
  {
    Braced([], n);
    Assoc("{{", "secret:" + n, "}}");
  }

  lemma ReplaceInPlaceholder(n: string, v: string, repl: string)
    requires IsValue(v)
    ensures Replace(Placeholder(n), v, repl) == InBraces(Replace("secret:" + n, v, repl))
  {
    ReplaceAroundPlaceholder([], n, [], v, repl);
    var inner := Replace("secret:" + n, v, repl);
    BetweenNothing([], Placeholder(n), []);
    BetweenNothing([], ("{{" + inner) + "}}", []);
    Assoc([], "{{", inner);
    Assoc([], "{{" + inner, "}}");
    Assoc("{{", inner, "}}");
  }

  lemma BetweenNothing(a: string, s: string, b: string)
    requires a == [] && b == []
    ensures a + s + b == s
  {
  }

  lemma {:induction false} LaterStepsKeepPlaceholder(r: Registry, i: nat, k: nat)
    requires Valid(r) && i < k <= |r.scrubOrder|
    requires forall j :: k <= j < |r.scrubOrder| ==> !Clashes(r.scrubOrder[i].name, r.scrubOrder[j].value)
    ensures ScrubFrom(r, k, Placeholder(r.scrubOrder[i].name)) == Placeholder(r.scrubOrder[i].name)
    decreases |r.scrubOrder| - k
  {
    if k < |r.scrubOrder| {
      QuietStep(r, i, k);
      LaterStepsKeepPlaceholder(r, i, k + 1);
    }
  }

  lemma QuietStep(r: Registry, i: nat, k: nat)
    requires Valid(r) && i < |r.scrubOrder| && k < |r.scrubOrder|
    requires !Clashes(r.scrubOrder[i].name, r.scrubOrder[k].value)
    ensures var p := Placeholder(r.scrubOrder[i].name); ScrubFrom(r, k, p) == ScrubFrom(r, k + 1, p)
  {
    ScrubStep(r, k, Placeholder(r.scrubOrder[i].name));
    PlaceholderStep(r, i, k);
  }

  /** What step `k` does to a placeholder. */
  lemma PlaceholderStep(r: Registry, i: nat, k: nat)
    requires Valid(r) && i < |r.scrubOrder| && k < |r.scrubOrder|
    ensures var n, v := r.scrubOrder[i].name, r.scrubOrder[k].value;
            var replaced := ReplaceAt(r, k, Placeholder(n));
            if Clashes(n, v) then Mangled(replaced) else replaced == Placeholder(n)
  {
    var n, s := r.scrubOrder[i].name, r.scrubOrder[k];
    assert r.scrubOrder[i] in r.scrubOrder && s in r.scrubOrder;
    if Clashes(n, s.value) {
      ClashMangles(n, s.value, s.name);
    } else {
      PlaceholderKept(n, s.value, Placeholder(s.name));
    }
  }

  // ---- exactly when the round trip holds -------------------------------------------------

  /** A placeholder with something brace-free and then another opening brace inside. */
  ghost predicate Mangled(t: string) {
    exists a, b :: BraceFree(a) && t == "{{" + a + "{" + b
  }

  lemma OpensWithBrace(n: string, rest: string) returns (b: string)
    ensures Placeholder(n) + rest == [] + "{" + b
  {
    var p := Placeholder(n);
    b := p[1..] + rest;
    assert p[0] == '{' && p == "{" + p[1..];
    Assoc("{", p[1..], rest);
    assert [] + "{" == "{";
  }

  lemma {:induction false} ReplacePresent(t: string, v: string, n: string) returns (a: string, b: string)
    requires v != "" && Contains(t, v)
    ensures a <= t && Replace(t, v, Placeholder(n)) == a + "{" + b
  {
    ContainsTail(t, v);
    if v <= t {
      a := [];
      b := OpensWithBrace(n, Replace(t[|v|..], v, Placeholder(n)));
    } else {
      var x;
      x, b := ReplacePresent(t[1..], v, n);
      a := [t[0]] + x;
      Assoc([t[0]], x + "{", b);
      Assoc([t[0]], x, "{");
    }
  }

  lemma MangledStays(t: string, v: string, n: string)
    requires Mangled(t) && IsValue(v)
    ensures Mangled(Replace(t, v, Placeholder(n)))
  {
    var p := Placeholder(n);
    var a, b :| BraceFree(a) && t == "{{" + a + "{" + b;
    var rest := a + ['{'] + b;
    assert t == "" + ['{', '{'] + rest;
    ReplaceAroundBraces("", '{', rest, v, p);
    ReplaceAroundBarrier(a, '{', b, v, p);
    assert Replace(t, v, p) == "{{" + (Replace(a, v, p) + "{" + Replace(b, v, p));
    if Contains(a, v) {
      var x, y := ReplacePresent(a, v, n);
      assert BraceFree(x);
      IsMangled(x, y, "{" + Replace(b, v, p));
      Assoc(x + "{" + y, "{", Replace(b, v, p));
    } else {
      ReplaceAbsent(a, v, p);
      IsMangled(a, Replace(b, v, p), "");
      assert a + "{" + Replace(b, v, p) + "" == a + "{" + Replace(b, v, p);
    }
  }

  lemma IsMangled(a: string, b: string, c: string)
    requires BraceFree(a)
    ensures Mangled("{{" + (a + "{" + b + c))
  {
    assert "{{" + (a + "{" + b + c) == "{{" + a + "{" + (b + c);
  }

  lemma InnerBraceFree(n: string, a: string)
    requires IsName(n) && a <= "secret:" + n
    ensures BraceFree(a)
  {
    assert BraceFree("secret:" + n);
  }

  lemma ClashMangles(n: string, v: string, m: string)
    requires IsName(n) && IsValue(v) && Clashes(n, v)
    ensures Mangled(Replace(Placeholder(n), v, Placeholder(m)))
  {
    ReplaceInPlaceholder(n, v, Placeholder(m));
    var x, y := ReplacePresent("secret:" + n, v, m);
    InnerBraceFree(n, x);
    IsMangled(x, y, "}}");
  }

  lemma {:induction false} ClashEndsMangled(r: Registry, i: nat, k: nat, j: nat)
    requires Valid(r) && i < k <= j < |r.scrubOrder|
    requires Clashes(r.scrubOrder[i].name, r.scrubOrder[j].value)
    ensures Mangled(ScrubFrom(r, k, Placeholder(r.scrubOrder[i].name)))
    decreases j - k
  {
    if Clashes(r.scrubOrder[i].name, r.scrubOrder[k].value) {
      ClashingStep(r, i, k);
    } else {
      QuietStep(r, i, k);
      ClashEndsMangled(r, i, k + 1, j);
    }
  }

  lemma ClashingStep(r: Registry, i: nat, k: nat)
    requires Valid(r) && i < |r.scrubOrder| && k < |r.scrubOrder|
    requires Clashes(r.scrubOrder[i].name, r.scrubOrder[k].value)
    ensures Mangled(ScrubFrom(r, k, Placeholder(r.scrubOrder[i].name)))
  {
    var p := Placeholder(r.scrubOrder[i].name);
    ScrubStep(r, k, p);
    PlaceholderStep(r, i, k);
    MangledToTheEnd(r, k + 1, ReplaceAt(r, k, p));
  }

  lemma {:induction false} MangledToTheEnd(r: Registry, k: nat, t: string)
    requires Valid(r) && k <= |r.scrubOrder| && Mangled(t)
    ensures Mangled(ScrubFrom(r, k, t))
    decreases |r.scrubOrder| - k
  {
    if k < |r.scrubOrder| {
      ScrubStep(r, k, t);
      assert r.scrubOrder[k] in r.scrubOrder;
      MangledStays(t, r.scrubOrder[k].value, r.scrubOrder[k].name);
      MangledToTheEnd(r, k + 1, ReplaceAt(r, k, t));
    }
  }

  lemma {:induction false} NameRunStops(t: string, k: nat)
    requires k < |t| && !IsNameChar(t[k])
    ensures NameRun(t) <= k
  {
    if k > 0 && IsNameChar(t[0]) { NameRunStops(t[1..], k - 1); }
  }

  lemma MangledKeepsBrace(secrets: map<string, string>, t: string)
    requires Mangled(t)
    ensures Substitute(secrets, t) != "" && Substitute(secrets, t)[0] == '{'
  {
    var a, b :| BraceFree(a) && t == "{{" + a + "{" + b;
    assert t[2 + |a|] == '{' && t[0] == '{';
    forall k | 2 <= k < 2 + |a| ensures t[k] != '}' { assert t[k] == a[k - 2]; }
    if OPEN <= t {
      assert |OPEN| <= 2 + |a| by {
        assert forall k | 2 <= k < |OPEN| :: t[k] == OPEN[k] && OPEN[k] != '{';
      }
      var rest := t[|OPEN|..];
      NameRunStops(rest, 2 + |a| - |OPEN|);
      assert rest[NameRun(rest)] == t[|OPEN| + NameRun(rest)];
    }
    assert MatchAt(t).None?;
  }

  /**
   Every brace-free text survives scrubbing and substitution exactly when no placeholder can
   be damaged by a value that is scrubbed after it.
   */
  lemma RoundTripExactly(r: Registry)
    requires Valid(r)
    ensures (forall t :: BraceFree(t) ==> Substitute(r.secrets, ScrubAll(r.scrubOrder, t)) == t)
       <==> NoLaterClash(r.scrubOrder)
  {
    var order := r.scrubOrder;
    if NoLaterClash(order) {
      forall t | BraceFree(t) ensures Substitute(r.secrets, ScrubAll(order, t)) == t {
        BraceFreeTextSurvives(r, t);
      }
    } else {
      var i, j :| 0 <= i < j < |order| && FirstOfValue(order, i) && Clashes(order[i].name, order[j].value);
      ClashBreaksRoundTrip(r, i, j);
    }
  }

  /** A value whose placeholder is damaged later does not come back. */
  lemma ClashBreaksRoundTrip(r: Registry, i: nat, j: nat)
    requires Valid(r) && i < j < |r.scrubOrder| && FirstOfValue(r.scrubOrder, i)
    requires Clashes(r.scrubOrder[i].name, r.scrubOrder[j].value)
    ensures var t := r.scrubOrder[i].value;
            BraceFree(t) && Substitute(r.secrets, ScrubAll(r.scrubOrder, t)) != t
  {
    var order := r.scrubOrder;
    var t := order[i].value;
    assert order[i] in order;
    ScrubbedValue(r, i);
    ClashEndsMangled(r, i, i + 1, j);
    MangledKeepsBrace(r.secrets, ScrubAll(order, t));
  }
}
