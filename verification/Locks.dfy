/** File claims of running tasks: two claims that cover a common path never coexist. */
module Locks {
  import opened Wrappers

  const SEP := '/'

  predicate EndsWithSep(a: string) {
    a != "" && a[|a| - 1] == SEP
  }

  /** The path as a directory prefix, so that "/src/a" does not match "/src/abc". */
  function AsPrefix(a: string): string {
    if EndsWithSep(a) then a else a + [SEP]
  }

  predicate PathsOverlap(a: string, b: string) {
    a == b || AsPrefix(a) <= b || AsPrefix(b) <= a
  }

  /** The claim is for the path itself or for a directory that contains it: a separator follows. */
  predicate Covers(claim: string, path: string) {
    && claim <= path
    && (path == claim || path[|claim|] == '/' || (claim != "" && claim[|claim| - 1] == '/'))
  }

  lemma CoversByPrefix(claim: string, path: string)
    ensures Covers(claim, path) <==> path == claim || AsPrefix(claim) <= path
  {
    if claim <= path && path != claim { assert path[..|claim| + 1] == claim + [path[|claim|]]; }
    if claim + ['/'] <= path { assert (claim + ['/'])[|claim|] == '/'; }
  }

  /** Claims overlap exactly when some path is covered by both. */
  lemma OverlapIffSharedPath(a: string, b: string)
    ensures PathsOverlap(a, b) <==> exists p :: Covers(a, p) && Covers(b, p)
  {
    if PathsOverlap(a, b) {
      var p := if AsPrefix(a) <= b then b else a;
      CoversByPrefix(a, p);
      CoversByPrefix(b, p);
      assert Covers(a, p) && Covers(b, p);
    }
    forall p | Covers(a, p) && Covers(b, p) ensures PathsOverlap(a, b) {
      if |AsPrefix(a)| <= |AsPrefix(b)| { SharedPath(a, b, p); } else { SharedPath(b, a, p); }
    }
  }

  lemma SharedPath(a: string, b: string, p: string)
    requires Covers(a, p) && Covers(b, p) && |AsPrefix(a)| <= |AsPrefix(b)|
    ensures PathsOverlap(a, b)
  {
    CoversByPrefix(a, p);
    CoversByPrefix(b, p);
    if p != a && p != b {
      assert AsPrefix(a) == p[..|AsPrefix(a)|] && AsPrefix(b) == p[..|AsPrefix(b)|];
      if |AsPrefix(a)| <= |b| {
        assert AsPrefix(a) <= b;
      } else {
        assert AsPrefix(a) == AsPrefix(b);
      }
    }
  }

  type Claims = map<nat, set<string>>

  ghost predicate Conflicting(claimed: set<string>, paths: seq<string>) {
    exists p, c :: p in paths && c in claimed && PathsOverlap(p, c)
  }

  ghost predicate Conflicts(claims: Claims, paths: seq<string>) {
    exists id :: id in claims && Conflicting(claims[id], paths)
  }

  /** Paths of distinct tasks never overlap. */
  ghost predicate Exclusive(claims: Claims) {
    forall i, j, p, q :: i in claims && j in claims && i != j && p in claims[i] && q in claims[j] ==>
      !PathsOverlap(p, q)
  }

  class FileLockRegistry {
    var claims: Claims

    constructor ()
      ensures claims == map[]
    {
      claims := map[];
    }

    /** The first task found with a claim that overlaps one of the paths. */
    method CheckConflict(paths: seq<string>) returns (conflict: Option<nat>)
      ensures conflict.Some? <==> Conflicts(claims, paths)
      ensures conflict.Some? ==> conflict.value in claims && Conflicting(claims[conflict.value], paths)
    {
      var rest := claims.Keys;
      while rest != {}
        invariant rest <= claims.Keys
        invariant forall id :: id in claims.Keys - rest ==> !Conflicting(claims[id], paths)
        decreases rest
      {
        var id :| id in rest;
        var found := AnyOverlap(claims[id], paths);
        if found {
          return Some(id);
        }
        rest := rest - {id};
      }
      conflict := None;
    }

    /** Claims the paths for the task, or fails on a conflict and leaves the claims alone. */
    method Claim(id: nat, paths: seq<string>) returns (ok: bool)
      modifies this
      ensures ok <==> !Conflicts(old(claims), paths)
      ensures claims == if ok then old(claims)[id := Elements(paths)] else old(claims)
    {
      var conflict := CheckConflict(paths);
      if conflict.Some? {
        return false;
      }
      claims := claims[id := Elements(paths)];
      ok := true;
    }

    method Release(id: nat)
      modifies this
      ensures claims == old(claims) - {id}
    {
      claims := claims - {id};
    }
  }

  method AnyOverlap(claimed: set<string>, paths: seq<string>) returns (found: bool)
    ensures found <==> Conflicting(claimed, paths)
  {
    for k := 0 to |paths|
      invariant forall i, c :: 0 <= i < k && c in claimed ==> !PathsOverlap(paths[i], c)
    {
      var rest := claimed;
      while rest != {}
        invariant rest <= claimed
        invariant forall c :: c in claimed - rest ==> !PathsOverlap(paths[k], c)
        decreases rest
      {
        var c :| c in rest;
        if PathsOverlap(paths[k], c) {
          return true;
        }
        rest := rest - {c};
      }
    }
    found := false;
  }

  // ---- every reachable registry ------------------------------------------------------------

  datatype Op = ClaimPaths(id: nat, paths: seq<string>) | ReleasePaths(id: nat)

  ghost function Apply(claims: Claims, op: Op): Claims {
    match op
    case ClaimPaths(id, paths) => if Conflicts(claims, paths) then claims else claims[id := Elements(paths)]
    case ReleasePaths(id) => claims - {id}
  }

  ghost function Run(ops: seq<Op>): Claims {
    if ops == [] then map[] else Apply(Run(ops[..|ops| - 1]), ops[|ops| - 1])
  }

  lemma OverlapSymmetric(a: string, b: string)
    ensures PathsOverlap(a, b) <==> PathsOverlap(b, a)
  {
  }

  lemma ClaimKeepsExclusive(claims: Claims, id: nat, paths: seq<string>)
    requires Exclusive(claims) && !Conflicts(claims, paths)
    ensures Exclusive(claims[id := Elements(paths)])
  {
    var after := claims[id := Elements(paths)];
    forall i, j, p, q | i in after && j in after && i != j && p in after[i] && q in after[j]
      ensures !PathsOverlap(p, q)
    {
      OverlapSymmetric(p, q);
      if i == id { assert p in paths && q in claims[j] && !Conflicting(claims[j], paths); }
      else if j == id { assert q in paths && p in claims[i] && !Conflicting(claims[i], paths); }
    }
  }

  ghost predicate CoveredBy(claims: Claims, id: nat, path: string) {
    id in claims && exists c :: c in claims[id] && Covers(c, path)
  }

  lemma {:induction false} ClaimsStayExclusive(ops: seq<Op>)
    ensures Exclusive(Run(ops))
  {
    if ops != [] {
      ClaimsStayExclusive(ops[..|ops| - 1]);
      var claims, op := Run(ops[..|ops| - 1]), ops[|ops| - 1];
      if op.ClaimPaths? && !Conflicts(claims, op.paths) {
        ClaimKeepsExclusive(claims, op.id, op.paths);
      }
    }
  }

  lemma ExclusiveCover(claims: Claims, i: nat, j: nat, path: string)
    requires Exclusive(claims) && CoveredBy(claims, i, path) && CoveredBy(claims, j, path)
    ensures i == j
  {
    var p :| p in claims[i] && Covers(p, path);
    var q :| q in claims[j] && Covers(q, path);
    OverlapIffSharedPath(p, q);
  }

  /** In every reachable registry no path is covered by the claims of two tasks. */
  lemma NoPathCoveredTwice(ops: seq<Op>, i: nat, j: nat, path: string)
    requires CoveredBy(Run(ops), i, path) && CoveredBy(Run(ops), j, path)
    ensures i == j
  {
    ClaimsStayExclusive(ops);
    ExclusiveCover(Run(ops), i, j, path);
  }
}
