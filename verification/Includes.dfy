/**
 Recursive include resolution with a guard set. Paths are strings; how a relative path resolves
 and which directory a file lies in are functions of the environment.
 */
module Includes {
  import opened Wrappers

  datatype Files = Files(
    contents: map<string, string>,
    resolvePath: (string, string) -> string,  // base directory and relative path
    parent: string -> string)

  datatype Error = Circular(path: string) | NotFound(path: string)

  const OPEN := "{include:"

  function UpToBrace(t: string): (n: nat)
    ensures n <= |t|
  {
    if t == "" || t[0] == '}' then 0 else 1 + UpToBrace(t[1..])
  }

  /** The relative path of a directive that starts the text: at least one character, then '}'. */
  function MatchAt(t: string): (rel: Option<string>)
    ensures rel.Some? ==> |OPEN| + |rel.value| + 1 <= |t|
  {
    if !(OPEN <= t) then None
    else
      var rest := t[|OPEN|..];
      var n := UpToBrace(rest);
      if 0 < n < |rest| then Some(rest[..n]) else None
  }

  function AfterMatch(t: string, rel: string): string
    requires |OPEN| + |rel| + 1 <= |t|
  {
    t[|OPEN| + |rel| + 1..]
  }

  /** Resolution with the set of files being included around this text. */
  function Resolve(env: Files, t: string, base: string, seen: set<string>): Result<string, Error>
    decreases env.contents.Keys - seen, |t|
  {
    if t == "" then Success("")
    else
      match MatchAt(t)
      case None =>
        (match Resolve(env, t[1..], base, seen)
         case Success(rest) => Success([t[0]] + rest)
         case Failure(e) => Failure(e))
      case Some(rel) =>
        var path := env.resolvePath(base, rel);
        if path in seen then Failure(Circular(path))
        else if path !in env.contents then Failure(NotFound(path))
        else
          match Resolve(env, env.contents[path], env.parent(path), seen + {path})
          case Failure(e) => Failure(e)
          case Success(inner) =>
            match Resolve(env, AfterMatch(t, rel), base, seen)
            case Failure(e) => Failure(e)
            case Success(rest) => Success(inner + rest)
  }

  lemma {:induction false} UpToBraceIs(rel: string, t: string)
    requires '}' !in rel
    ensures UpToBrace(rel + "}" + t) == |rel|
  {
    var text := rel + "}" + t;
    if rel != "" {
      assert text[1..] == rel[1..] + "}" + t;
      UpToBraceIs(rel[1..], t);
    }
  }

  lemma DirectiveMatches(rel: string, t: string)
    requires rel != "" && '}' !in rel
    ensures var text := "{include:" + rel + "}" + t;
      MatchAt(text) == Some(rel) && |OPEN| + |rel| + 1 <= |text| && AfterMatch(text, rel) == t
  {
    var text, tail := "{include:" + rel + "}" + t, rel + "}" + t;
    UpToBraceIs(rel, t);
    assert text == OPEN + tail && text[|OPEN|..] == tail;
    assert tail[..|rel|] == rel && |rel| < |tail|;
    assert text[|OPEN| + |rel| + 1..] == tail[|rel| + 1..] == t;
  }

  /** A directive is replaced by what its file resolves to, and the text goes on right behind it. */
  lemma ResolveDirective(env: Files, rel: string, t: string, base: string, seen: set<string>)
    requires rel != "" && '}' !in rel
    ensures var path := env.resolvePath(base, rel);
            var r := Resolve(env, "{include:" + rel + "}" + t, base, seen);
      if path in seen then r == Failure(Circular(path))
      else if path !in env.contents then r == Failure(NotFound(path))
      else
        var inner := Resolve(env, env.contents[path], env.parent(path), seen + {path});
        var rest := Resolve(env, t, base, seen);
        if inner.Failure? then r == inner
        else if rest.Failure? then r == rest
        else r == Success(inner.value + rest.value)
  {
    DirectiveMatches(rel, t);
  }

  lemma {:induction false} BraceFound(t: string)
    ensures UpToBrace(t) < |t| ==> t[UpToBrace(t)] == '}'
    ensures '}' !in t[..UpToBrace(t)]
  {
    if t != "" && t[0] != '}' { BraceFound(t[1..]); }
  }

  /** Where no directive starts the text keeps its first character. */
  lemma ResolveElsewhere(env: Files, t: string, base: string, seen: set<string>)
    requires t != "" && forall rel :: rel != "" && '}' !in rel ==> !("{include:" + rel + "}" <= t)
    ensures var rest := Resolve(env, t[1..], base, seen);
      Resolve(env, t, base, seen) == if rest.Success? then Success([t[0]] + rest.value) else rest
  {
    if MatchAt(t).Some? { MatchIsDirective(t, MatchAt(t).value); }
  }

  lemma MatchIsDirective(t: string, rel: string)
    requires MatchAt(t) == Some(rel)
    ensures rel != "" && '}' !in rel && "{include:" + rel + "}" <= t
  {
    var rest := t[|OPEN|..];
    BraceFound(rest);
    assert t == OPEN + rest && rest == rel + ("}" + rest[|rel| + 1..]);
  }

  function ResolveIncludes(env: Files, template: string, base: string): Result<string, Error> {
    Resolve(env, template, base, {})
  }

  /** The unguarded expansion, given up at the nesting depth. */
  function Expand(env: Files, t: string, base: string, depth: nat): Option<string>
    decreases depth, |t|
  {
    if t == "" then Some("")
    else
      match MatchAt(t)
      case None =>
        (match Expand(env, t[1..], base, depth)
         case Some(rest) => Some([t[0]] + rest)
         case None => None)
      case Some(rel) =>
        var path := env.resolvePath(base, rel);
        if depth == 0 || path !in env.contents then None
        else
          match Expand(env, env.contents[path], env.parent(path), depth - 1)
          case None => None
          case Some(inner) =>
            match Expand(env, AfterMatch(t, rel), base, depth)
            case None => None
            case Some(rest) => Some(inner + rest)
  }

  // ---- include chains ---------------------------------------------------------------------

  function Targets(env: Files, t: string, base: string): set<string>
    decreases |t|
  {
    if t == "" then {}
    else
      match MatchAt(t)
      case None => Targets(env, t[1..], base)
      case Some(rel) => {env.resolvePath(base, rel)} + Targets(env, AfterMatch(t, rel), base)
  }

  /** A chain of includes from the text: every file but perhaps the last exists. */
  ghost predicate Chain(env: Files, t: string, base: string, c: seq<string>)
    decreases |c|
  {
    && c != [] && c[0] in Targets(env, t, base)
    && (|c| > 1 ==> c[0] in env.contents && Chain(env, env.contents[c[0]], env.parent(c[0]), c[1..]))
  }

  /** Every file reachable by includes exists, and no file includes itself indirectly. */
  ghost predicate WellIncluded(env: Files, t: string, base: string) {
    forall c :: Chain(env, t, base, c) ==> c[|c| - 1] in env.contents && NoDup(c)
  }

  /** If the text resolves, so does every file it includes, with that file guarded too. */
  lemma {:induction false} TargetResolves(env: Files, t: string, base: string, seen: set<string>, path: string)
    requires Resolve(env, t, base, seen).Success? && path in Targets(env, t, base)
    ensures path !in seen && path in env.contents
    ensures Resolve(env, env.contents[path], env.parent(path), seen + {path}).Success?
    decreases |t|
  {
    match MatchAt(t)
    case None => TargetResolves(env, t[1..], base, seen, path);
    case Some(rel) =>
      if path != env.resolvePath(base, rel) {
        TargetResolves(env, AfterMatch(t, rel), base, seen, path);
      }
  }

  lemma {:induction false} ChainResolves(env: Files, t: string, base: string, seen: set<string>, c: seq<string>)
    requires Resolve(env, t, base, seen).Success? && Chain(env, t, base, c)
    ensures c[|c| - 1] in env.contents && NoDup(c) && forall x :: x in c ==> x !in seen
    decreases |c|
  {
    var path := c[0];
    TargetResolves(env, t, base, seen, path);
    if |c| > 1 {
      ChainResolves(env, env.contents[path], env.parent(path), seen + {path}, c[1..]);
      assert forall x :: x in c <==> x == path || x in c[1..];
    }
  }

  /** A failure points at a chain that ends in a missing file or in one already being included. */
  lemma {:induction false} FailureHasChain(env: Files, t: string, base: string, seen: set<string>)
    returns (c: seq<string>)
    requires Resolve(env, t, base, seen).Failure?
    ensures Chain(env, t, base, c) && c[|c| - 1] == Resolve(env, t, base, seen).error.path
    ensures match Resolve(env, t, base, seen).error
            case NotFound(path) => path !in env.contents
            case Circular(path) => path in seen || path in c[..|c| - 1]
    decreases env.contents.Keys - seen, |t|
  {
    match MatchAt(t)
    case None =>
      c := FailureHasChain(env, t[1..], base, seen);
    case Some(rel) =>
      var path := env.resolvePath(base, rel);
      if path in seen || path !in env.contents {
        c := [path];
      } else if Resolve(env, env.contents[path], env.parent(path), seen + {path}).Failure? {
        var rest := FailureHasChain(env, env.contents[path], env.parent(path), seen + {path});
        c := [path] + rest;
        assert c[1..] == rest && c[..|c| - 1] == [path] + rest[..|rest| - 1];
      } else {
        c := FailureHasChain(env, AfterMatch(t, rel), base, seen);
      }
  }

  /** Resolution succeeds exactly when reachable includes exist and none is circular. */
  lemma ResolvesIffWellIncluded(env: Files, t: string, base: string)
    ensures ResolveIncludes(env, t, base).Success? <==> WellIncluded(env, t, base)
  {
    if ResolveIncludes(env, t, base).Success? {
      forall c | Chain(env, t, base, c) ensures c[|c| - 1] in env.contents && NoDup(c) {
        ChainResolves(env, t, base, {}, c);
      }
    } else {
      var c := FailureHasChain(env, t, base, {});
      assert Chain(env, t, base, c);
    }
  }

  /** The error tells which: a reachable file is missing, or reachable from itself. */
  lemma ErrorIsGenuine(env: Files, t: string, base: string) returns (c: seq<string>)
    requires ResolveIncludes(env, t, base).Failure?
    ensures Chain(env, t, base, c) && c[|c| - 1] == ResolveIncludes(env, t, base).error.path
    ensures match ResolveIncludes(env, t, base).error
            case NotFound(path) => path !in env.contents
            case Circular(path) => path in c[..|c| - 1]
  {
    c := FailureHasChain(env, t, base, {});
  }

  // ---- the unguarded expansion ------------------------------------------------------------

  lemma {:induction false} DeeperIsSame(env: Files, t: string, base: string, d: nat, e: nat)
    requires d <= e && Expand(env, t, base, d).Some?
    ensures Expand(env, t, base, e) == Expand(env, t, base, d)
    decreases d, |t|
  {
    if t != "" {
      match MatchAt(t)
      case None => DeeperIsSame(env, t[1..], base, d, e);
      case Some(rel) =>
        var path := env.resolvePath(base, rel);
        DeeperIsSame(env, env.contents[path], env.parent(path), d - 1, e - 1);
        DeeperIsSame(env, AfterMatch(t, rel), base, d, e);
    }
  }

  lemma SmallerKeys(a: set<string>, b: set<string>, x: string)
    requires x in a && x !in b
    ensures |a - (b + {x})| == |a - b| - 1
  {
    assert a - b == (a - (b + {x})) + {x};
  }

  /** What resolves is what expands, at the depth of the number of unguarded files. */
  lemma {:induction false} ResolvedExpands(env: Files, t: string, base: string, seen: set<string>)
    requires Resolve(env, t, base, seen).Success?
    ensures Expand(env, t, base, |env.contents.Keys - seen|) == Some(Resolve(env, t, base, seen).value)
    decreases env.contents.Keys - seen, |t|
  {
    if t != "" {
      match MatchAt(t)
      case None => ResolvedExpands(env, t[1..], base, seen);
      case Some(rel) =>
        var path := env.resolvePath(base, rel);
        SmallerKeys(env.contents.Keys, seen, path);
        ResolvedExpands(env, env.contents[path], env.parent(path), seen + {path});
        ResolvedExpands(env, AfterMatch(t, rel), base, seen);
    }
  }

  lemma {:induction false} TargetExpands(env: Files, t: string, base: string, d: nat, path: string)
    requires Expand(env, t, base, d).Some? && path in Targets(env, t, base)
    ensures d > 0 && path in env.contents
    ensures Expand(env, env.contents[path], env.parent(path), d - 1).Some?
    decreases |t|
  {
    match MatchAt(t)
    case None => TargetExpands(env, t[1..], base, d, path);
    case Some(rel) =>
      if path != env.resolvePath(base, rel) {
        TargetExpands(env, AfterMatch(t, rel), base, d, path);
      }
  }

  /** The least depth at which a file expands, found downwards from one at which it does. */
  ghost function LeastDepth(env: Files, path: string, d: nat): (k: nat)
    requires path in env.contents && Expand(env, env.contents[path], env.parent(path), d).Some?
    ensures k <= d && Expand(env, env.contents[path], env.parent(path), k).Some?
    ensures k > 0 ==> Expand(env, env.contents[path], env.parent(path), k - 1).None?
    decreases d
  {
    if d > 0 && Expand(env, env.contents[path], env.parent(path), d - 1).Some? then LeastDepth(env, path, d - 1) else d
  }

  lemma LeastIsLeast(env: Files, path: string, d: nat, e: nat)
    requires path in env.contents && Expand(env, env.contents[path], env.parent(path), d).Some?
    requires Expand(env, env.contents[path], env.parent(path), e).Some?
    ensures LeastDepth(env, path, d) <= e
  {
    var k := LeastDepth(env, path, d);
    if e < k { DeeperIsSame(env, env.contents[path], env.parent(path), e, k - 1); }
  }

  /** Along a chain the least depths fall, so no file comes twice. */
  lemma {:induction false} ChainDescends(env: Files, t: string, base: string, d: nat, c: seq<string>)
    requires Expand(env, t, base, d).Some? && Chain(env, t, base, c)
    ensures d > 0 && c[|c| - 1] in env.contents && NoDup(c)
    ensures forall x :: x in c ==>
      x in env.contents && Expand(env, env.contents[x], env.parent(x), d - 1).Some?
    decreases |c|
  {
    var path := c[0];
    TargetExpands(env, t, base, d, path);
    if |c| > 1 {
      var k := LeastDepth(env, path, d - 1);
      ChainDescends(env, env.contents[path], env.parent(path), k, c[1..]);
      forall x | x in c[1..]
        ensures Expand(env, env.contents[x], env.parent(x), d - 1).Some? && x != path
      {
        DeeperIsSame(env, env.contents[x], env.parent(x), k - 1, d - 1);
        LeastIsLeast(env, x, d - 1, k - 1);
      }
      assert forall x :: x in c <==> x == path || x in c[1..];
    }
  }

  /**
   The guard costs nothing: the guarded resolution gives a text exactly when the unguarded
   expansion ends at some depth, and then both give the same text.
   */
  lemma ResolveIsExpand(env: Files, t: string, base: string, s: string)
    ensures ResolveIncludes(env, t, base) == Success(s) <==> exists d: nat :: Expand(env, t, base, d) == Some(s)
  {
    if ResolveIncludes(env, t, base) == Success(s) {
      ResolvedExpands(env, t, base, {});
    }
    forall d: nat | Expand(env, t, base, d) == Some(s) ensures ResolveIncludes(env, t, base) == Success(s) {
      forall c | Chain(env, t, base, c) ensures c[|c| - 1] in env.contents && NoDup(c) {
        ChainDescends(env, t, base, d, c);
      }
      ResolvesIffWellIncluded(env, t, base);
      ResolvedExpands(env, t, base, {});
      var e := |env.contents.Keys - {}|;
      if d <= e { DeeperIsSame(env, t, base, d, e); } else { DeeperIsSame(env, t, base, e, d); }
    }
  }
}
