/**
 * The type database (common/typedatabase.cs): a registry of parsed types keyed
 * by fully-qualified name, the namespace-scope name resolver, and the
 * memoised resolver that flattens every type's bases into its full, resolved
 * inheritance chain.
 *
 * The specification functions come first; the class TypeDatabase at the end
 * holds the registry as a field and implements Init, ResolveTypeName and
 * ResolveFullInhertiance as methods proved equal to them.
 */
module Database {
  import opened Wrappers
  import opened Strings
  import opened Functions
  import opened Types

  /** The registry: fully-qualified name to type. */
  type Registry = map<string, Type>

  /** The inheritance cache shared by one resolve pass. */
  type Cache = map<string, seq<string>>

  /** Every entry is stored under its own fully-qualified name. */
  predicate Keyed(db: Registry)
  {
    forall k :: k in db ==> db[k].FullyQualifiedName == k
  }

  // ---------------------------------------------------------------------------
  // Name resolution (ResolveTypeName).
  // ---------------------------------------------------------------------------

  /** The enclosing scopes the while loop tries, innermost first: each prefix up to and including a "::". */
  function ScopeCandidates(ns: string, name: string): (r: seq<string>)
    ensures forall j :: 0 <= j < |r| ==> |r[j]| >= |name| + 2
    decreases |ns|
  {
    var i := LastIndexOfSeparator(ns);
    if i == -1 then [] else [ns[..i + 2] + name] + ScopeCandidates(ns[..i], name)
  }

  /** Every name ResolveTypeName tries, in order: the name as given, then `ctx::name`, then the enclosing scopes. */
  function Candidates(name: string, ctx: string): seq<string>
  {
    [name, ctx + "::" + name] + ScopeCandidates(ctx, name)
  }

  /** The first of `cs` that is registered. */
  function FirstKey(db: Registry, cs: seq<string>): (r: Option<string>)
    ensures r.None? <==> forall j :: 0 <= j < |cs| ==> cs[j] !in db
    ensures r.Some? ==> exists i :: 0 <= i < |cs| && cs[i] == r.value && r.value in db
                                    && forall j :: 0 <= j < i ==> cs[j] !in db
  {
    if cs == [] then None
    else if cs[0] in db then Some(cs[0])
    else
      var r := FirstKey(db, cs[1..]);
      assert forall j :: 1 <= j < |cs| ==> cs[j] == cs[1..][j - 1];
      r
  }

  /** The key ResolveTypeName finds for `name` in namespace context `ctx`, if any. */
  function LookupKey(db: Registry, name: string, ctx: string): (r: Option<string>)
    ensures r.Some? ==> r.value in db
  {
    FirstKey(db, Candidates(name, ctx))
  }

  /** ResolveTypeName(name, ctx): the type registered under the first candidate that is registered. */
  function Lookup(db: Registry, name: string, ctx: string): Option<Type>
  {
    match LookupKey(db, name, ctx)
    case None => None
    case Some(k) => Some(db[k])
  }

  /**
   * The exact name wins over every qualified candidate, `ctx::name` over the
   * enclosing scopes, and the first registered scope candidate after them;
   * the lookup misses exactly when no candidate is registered.
   */
  lemma LookupOrder(db: Registry, name: string, ctx: string)
    ensures name in db ==> LookupKey(db, name, ctx) == Some(name)
    ensures name !in db && ctx + "::" + name in db ==> LookupKey(db, name, ctx) == Some(ctx + "::" + name)
    ensures name !in db && ctx + "::" + name !in db ==>
      LookupKey(db, name, ctx) == FirstKey(db, ScopeCandidates(ctx, name))
  {
    var cs := Candidates(name, ctx);
    var rest := ScopeCandidates(ctx, name);
    assert cs[0] == name;
    assert cs[1..] == [ctx + "::" + name] + rest;
    assert cs[1..][1..] == rest;
    assert FirstKey(db, cs) == if name in db then Some(name) else FirstKey(db, cs[1..]);
    assert FirstKey(db, cs[1..]) == if ctx + "::" + name in db then Some(ctx + "::" + name) else FirstKey(db, rest);
  }

  /**
   * Candidate `j` of `r` is a prefix of the context `ns` that ends in "::",
   * followed by the name, and is shorter than candidate `j - 1`.
   */
  predicate OuterScopeAt(ns: string, name: string, r: seq<string>, j: nat)
    requires j < |r|
  {
    var m := |r[j]| - |name|;
    && 2 <= m <= |ns|
    && r[j] == ns[..m] + name
    && ns[m - 2..m] == "::"
    && (j > 0 ==> |r[j]| < |r[j - 1]|)
  }

  /** The scope candidates walk outwards from the innermost enclosing scope. */
  lemma {:induction false} ScopeCandidatesWalkOutwards(ns: string, name: string)
    ensures forall j :: 0 <= j < |ScopeCandidates(ns, name)| ==> OuterScopeAt(ns, name, ScopeCandidates(ns, name), j)
    decreases |ns|
  {
    var i := LastIndexOfSeparator(ns);
    if i != -1 {
      var r := ScopeCandidates(ns, name);
      var rest := ScopeCandidates(ns[..i], name);
      ScopeCandidatesWalkOutwards(ns[..i], name);
      assert r == [ns[..i + 2] + name] + rest;
      forall j | 0 <= j < |r| ensures OuterScopeAt(ns, name, r, j) {
        OuterScopeShift(ns, name, i, rest, j);
      }
    }
  }

  /** One scope further out: the candidates of `ns[..i]` are candidates of `ns` one position later. */
  lemma OuterScopeShift(ns: string, name: string, i: int, rest: seq<string>, j: nat)
    requires SeparatorAt(ns, i)
    requires forall j' :: 0 <= j' < |rest| ==> OuterScopeAt(ns[..i], name, rest, j')
    requires j <= |rest|
    ensures OuterScopeAt(ns, name, [ns[..i + 2] + name] + rest, j)
  {
    var r := [ns[..i + 2] + name] + rest;
    if j > 0 {
      assert r[j] == rest[j - 1];
      assert OuterScopeAt(ns[..i], name, rest, j - 1);
      var m := |r[j]| - |name|;
      assert ns[..i][..m] == ns[..m];
      assert ns[..i][m - 2..m] == ns[m - 2..m];
      if j > 1 {
        assert r[j - 1] == rest[j - 2];
      }
    }
  }

  /** Where the "::" that candidate `j` ends in starts in the context. */
  function CutOf(name: string, r: seq<string>, j: nat): int
    requires j < |r|
  {
    |r[j]| - |name| - 2
  }

  /**
   * No "::" of the context lies between candidate `j`'s and the one before
   * it (after the end of the context, for the first): the walk skips no
   * enclosing scope.
   */
  predicate NoScopeSkipped(ns: string, name: string, r: seq<string>, j: nat)
    requires j < |r|
  {
    var above := if j == 0 then |ns| else CutOf(name, r, j - 1);
    forall k :: CutOf(name, r, j) < k && k + 2 <= above ==> !SeparatorAt(ns, k)
  }

  /** Every "::" of the context overlaps the last candidate's or lies after it: no scope is left to try. */
  predicate ScopesExhausted(ns: string, name: string, r: seq<string>)
  {
    forall k :: 0 <= k < |ns| && SeparatorAt(ns, k) ==> r != [] && CutOf(name, r, |r| - 1) < k + 2
  }

  /**
   * The first candidate cuts the context at its last "::", each later one
   * at the last "::" before the previous cut, and the walk stops exactly
   * when no "::" is left: the candidates are all the enclosing scopes.
   */
  lemma {:induction false} ScopeCandidatesSkipNone(ns: string, name: string)
    ensures var r := ScopeCandidates(ns, name);
      && (LastIndexOfSeparator(ns) == -1 <==> r == [])
      && (LastIndexOfSeparator(ns) != -1 ==> r[0] == ns[..LastIndexOfSeparator(ns) + 2] + name)
      && (forall j :: 0 <= j < |r| ==> NoScopeSkipped(ns, name, r, j))
      && ScopesExhausted(ns, name, r)
    decreases |ns|
  {
    var i := LastIndexOfSeparator(ns);
    if i != -1 {
      var r := ScopeCandidates(ns, name);
      var rest := ScopeCandidates(ns[..i], name);
      ScopeCandidatesSkipNone(ns[..i], name);
      ScopeCandidatesWalkOutwards(ns[..i], name);
      assert r == [ns[..i + 2] + name] + rest;
      forall k ensures SeparatorAt(ns[..i], k) <==> SeparatorAt(ns, k) && k + 2 <= i {
      }
      forall j | 0 <= j < |r| ensures NoScopeSkipped(ns, name, r, j) {
        NoScopeSkippedShift(ns, name, i, rest, j);
      }
      if rest != [] {
        assert r[|r| - 1] == rest[|rest| - 1];
        assert OuterScopeAt(ns[..i], name, rest, |rest| - 1);
      }
    }
  }

  /** One scope further out: no scope is skipped among the candidates of `ns[..i]` placed after `ns`'s innermost one. */
  lemma NoScopeSkippedShift(ns: string, name: string, i: int, rest: seq<string>, j: nat)
    requires i == LastIndexOfSeparator(ns) && i != -1
    requires forall j' :: 0 <= j' < |rest| ==> NoScopeSkipped(ns[..i], name, rest, j') && OuterScopeAt(ns[..i], name, rest, j')
    requires j <= |rest|
    ensures NoScopeSkipped(ns, name, [ns[..i + 2] + name] + rest, j)
  {
    var r := [ns[..i + 2] + name] + rest;
    if j > 0 {
      assert r[j] == rest[j - 1];
      assert NoScopeSkipped(ns[..i], name, rest, j - 1);
      assert OuterScopeAt(ns[..i], name, rest, j - 1);
      var above := CutOf(name, r, j - 1);
      if j > 1 {
        assert r[j - 1] == rest[j - 2];
        assert OuterScopeAt(ns[..i], name, rest, j - 2);
      }
      assert above <= i;
      forall k | CutOf(name, r, j) < k && k + 2 <= above ensures !SeparatorAt(ns, k) {
        assert !SeparatorAt(ns[..i], k);
      }
    }
  }

  // ---------------------------------------------------------------------------
  // ResolveFullInhertiance.
  // ---------------------------------------------------------------------------

  /**
   * Why the resolver stops: where the C# code throws, or where a type is
   * re-entered while in progress on a cyclic name graph.
   */
  datatype Failure =
    | CyclicInheritance(fullyQualifiedName: string)
    | BaseSubstringOutOfRange(baseClass: string)
    | TemplateArgumentOutOfRange(baseClass: string, position: nat)

  /** A resolved chain together with the cache as the call leaves it, or the reason it stopped. */
  datatype Resolution = Resolved(chain: seq<string>, cache: Cache) | Failed(failure: Failure)

  /** The namespace context of a type: its fully-qualified name up to the last "::", or the whole name when it has none. */
  function NamespaceContext(fqn: string): (r: string)
    ensures LastIndexOfSeparator(fqn) == -1 ==> r == fqn
    ensures LastIndexOfSeparator(fqn) != -1 ==> r + "::" <= fqn && !Contains(fqn[|r| + 2..], "::")
  {
    var i := LastIndexOfSeparator(fqn);
    if i == -1 then fqn
    else
      NoSeparatorAfterLast(fqn, i);
      fqn[..i]
  }

  /** Nothing after the last separator holds another "::". */
  lemma {:induction false} NoSeparatorAfterLast(s: string, i: int)
    requires i == LastIndexOfSeparator(s) && i != -1
    ensures !Contains(s[i + 2..], "::")
  {
    NoSeparatorFrom(s, i + 2);
  }

  lemma {:induction false} NoSeparatorFrom(s: string, k: int)
    requires 0 <= k <= |s|
    requires forall j :: k <= j ==> !SeparatorAt(s, j)
    ensures !Contains(s[k..], "::")
    decreases |s| - k
  {
    if k < |s| {
      assert !SeparatorAt(s, k);
      assert s[k..][1..] == s[k + 1..];
      NoSeparatorFrom(s, k + 1);
    }
  }

  /** The name with any `<...>` suffix cut at its first '<'. */
  function StripTemplate(s: string): (r: string)
    ensures r <= s && '<' !in r
    ensures '<' !in s ==> r == s
  {
    var ti := IndexOf(s, '<');
    if ti == -1 then s else s[..ti]
  }

  /** The template inherits directly from one of its own parameters. */
  predicate DerivesFromOwnParameter(u: Type)
  {
    u.TemplateParameters.Some? && exists p :: p in u.TemplateParameters.value && IsDerivedFrom(u, p)
  }

  /** `prefix` in front of a resolved chain; a failure passes through. */
  function Prepend(prefix: seq<string>, r: Resolution): Resolution
  {
    match r
    case Failed(e) => r
    case Resolved(chain, c) => Resolved(prefix + chain, c)
  }

  /** Marking a type as in progress leaves one unvisited registered name fewer. */
  lemma VisitShrinks(keys: set<string>, visited: set<string>, fqn: string)
    requires fqn in keys && fqn !in visited
    ensures |keys - (visited + {fqn})| + 1 == |keys - visited|
  {
    assert keys - visited == (keys - (visited + {fqn})) + {fqn};
  }

  /**
   * ResolveFullInhertiance(t, cache), with the set of types still in
   * progress on the current call path: a cached result is returned as is;
   * re-entering a type in progress is reported as a cycle (on such a graph
   * the C# code may recurse without end, or may return through a chain
   * cached further in, since an alias caches under its target's name);
   * an alias is replaced by its target, resolved in the alias's own namespace
   * context; the chain is then cached under the (target) type's name.
   */
  function ResolveFull(db: Registry, t: Type, cache: Cache, visited: set<string>): Resolution
    requires Keyed(db) && t.FullyQualifiedName in db
    decreases |db.Keys - visited|, 6, 0
  {
    var fqn := t.FullyQualifiedName;
    if fqn in cache then Resolved(cache[fqn], cache)
    else if fqn in visited then Failed(CyclicInheritance(fqn))
    else ResolveFresh(db, t, cache, visited)
  }

  /** ResolveFull on a type that is neither cached nor in progress. */
  function ResolveFresh(db: Registry, t: Type, cache: Cache, visited: set<string>): Resolution
    requires Keyed(db) && t.FullyQualifiedName in db && t.FullyQualifiedName !in visited
    decreases |db.Keys - visited|, 5, 0
  {
    var fqn := t.FullyQualifiedName;
    var ctx := NamespaceContext(fqn);
    var inProgress := visited + {fqn};
    VisitShrinks(db.Keys, visited, fqn);
    if t.IsAliased then
      var aliasedTypeName := StripTemplate(t.AliasedType);
      match LookupKey(db, aliasedTypeName, ctx)
      case None => Resolved([aliasedTypeName], cache)
      case Some(k) =>
        match ResolveBases(db, db[k].Inherits, ctx, cache, inProgress, |db[k].Inherits|)
        case Failed(e) => Failed(e)
        case Resolved(chain, c) => Resolved(chain, c[k := chain])
    else
      match ResolveBases(db, t.Inherits, ctx, cache, inProgress, |t.Inherits|)
      case Failed(e) => Failed(e)
      case Resolved(chain, c) => Resolved(chain, c[fqn := chain])
  }

  /** The chain contributed by the first `n` bases, in declaration order, threading the cache. */
  function ResolveBases(db: Registry, bases: seq<string>, ctx: string, cache: Cache, inProgress: set<string>, n: nat): Resolution
    requires Keyed(db) && n <= |bases|
    decreases |db.Keys - inProgress| + 1, 4, n
  {
    if n == 0 then Resolved([], cache)
    else
      match ResolveBases(db, bases, ctx, cache, inProgress, n - 1)
      case Failed(e) => Failed(e)
      case Resolved(chain, c) => Prepend(chain, BaseStep(db, bases[n - 1], ctx, c, inProgress))
  }

  /**
   * One declared base: cut at its first '<' (the argument text runs to the
   * character before the last one, so a '<' in last place is out of range),
   * looked up; kept verbatim when unresolved; otherwise its fully-qualified
   * name with the original suffix, then either the template substitution or
   * the base's own chain.
   */
  function BaseStep(db: Registry, b: string, ctx: string, cache: Cache, inProgress: set<string>): Resolution
    requires Keyed(db)
    decreases |db.Keys - inProgress| + 1, 3, 1
  {
    var ti := IndexOf(b, '<');
    if ti != -1 && ti + 1 > |b| - 1 then Failed(BaseSubstringOutOfRange(b))
    else
      match LookupKey(db, if ti == -1 then b else b[..ti], ctx)
      case None => Resolved([b], cache)
      case Some(k) => BaseFound(db, b, ti, k, ctx, cache, inProgress)
  }

  /**
   * A base whose name (cut at `ti`, the first '<', or -1) is registered under
   * `k`: `k` with the original template suffix, then the template
   * substitution or the base's own chain.
   */
  function BaseFound(db: Registry, b: string, ti: int, k: string, ctx: string, cache: Cache, inProgress: set<string>): Resolution
    requires Keyed(db) && k in db && (ti == -1 || 0 <= ti <= |b| - 2)
    decreases |db.Keys - inProgress| + 1, 3, 0
  {
    var u := db[k];
    var name := k + (if ti == -1 then "" else b[ti..]);
    if DerivesFromOwnParameter(u) then
      var arguments := if ti == -1 then "" else b[ti + 1..|b| - 1];
      Prepend([name], TemplatePositions(db, u, b, Split(arguments, {','}), ctx, cache, inProgress, |u.Inherits|))
    else
      Prepend([name], ResolveFull(db, u, cache, inProgress))
  }

  /** The substituted chain for the first `n` positions of a template's bases. */
  function TemplatePositions(db: Registry, u: Type, b: string, args: seq<string>, ctx: string, cache: Cache,
                             inProgress: set<string>, n: nat): Resolution
    requires Keyed(db) && u.TemplateParameters.Some? && n <= |u.Inherits|
    decreases |db.Keys - inProgress| + 1, 2, n
  {
    if n == 0 then Resolved([], cache)
    else
      match TemplatePositions(db, u, b, args, ctx, cache, inProgress, n - 1)
      case Failed(e) => Failed(e)
      case Resolved(chain, c) => Prepend(chain, TemplatePosition(db, u, b, args, ctx, c, inProgress, n - 1))
  }

  /**
   * Position `i` of a template's bases: a template parameter takes the `i`-th
   * comma-separated argument (indexed by the position among the bases, not
   * among the parameters, and not trimmed); any other base is resolved as
   * written.
   */
  function TemplatePosition(db: Registry, u: Type, b: string, args: seq<string>, ctx: string, cache: Cache,
                            inProgress: set<string>, i: nat): Resolution
    requires Keyed(db) && u.TemplateParameters.Some? && i < |u.Inherits|
    decreases |db.Keys - inProgress| + 1, 1, 0
  {
    if u.Inherits[i] in u.TemplateParameters.value then
      if i >= |args| then Failed(TemplateArgumentOutOfRange(b, i))
      else ResolveNamed(db, args[i], ctx, cache, inProgress)
    else ResolveNamed(db, u.Inherits[i], ctx, cache, inProgress)
  }

  /** A name looked up and, when registered, followed by its own chain; kept verbatim otherwise. */
  function ResolveNamed(db: Registry, name: string, ctx: string, cache: Cache, inProgress: set<string>): Resolution
    requires Keyed(db)
    decreases |db.Keys - inProgress| + 1, 0, 0
  {
    match LookupKey(db, name, ctx)
    case None => Resolved([name], cache)
    case Some(k) => Prepend([k], ResolveFull(db, db[k], cache, inProgress))
  }

  // ---------------------------------------------------------------------------
  // What one call of the resolver does, case by case.
  // ---------------------------------------------------------------------------

  /** A type already in the cache gets the cached chain; the type itself is not looked at and the cache stays as it is. */
  lemma ResolveFullCached(db: Registry, t: Type, cache: Cache, visited: set<string>)
    requires Keyed(db) && t.FullyQualifiedName in db && t.FullyQualifiedName in cache
    ensures ResolveFull(db, t, cache, visited) == Resolved(cache[t.FullyQualifiedName], cache)
  {
  }

  /** Re-entering a type still in progress, with nothing cached for it, is reported as a cyclic inheritance. */
  lemma ResolveFullCycle(db: Registry, t: Type, cache: Cache, visited: set<string>)
    requires Keyed(db) && t.FullyQualifiedName in db && t.FullyQualifiedName !in cache && t.FullyQualifiedName in visited
    ensures ResolveFull(db, t, cache, visited) == Failed(CyclicInheritance(t.FullyQualifiedName))
  {
  }

  /**
   * An alias whose target (cut at its first '<') is not found resolves to
   * just that target name, and nothing is cached.
   */
  lemma ResolveAliasUnresolved(db: Registry, t: Type, cache: Cache, visited: set<string>)
    requires Keyed(db) && t.FullyQualifiedName in db && t.FullyQualifiedName !in cache && t.FullyQualifiedName !in visited
    requires t.IsAliased && Lookup(db, StripTemplate(t.AliasedType), NamespaceContext(t.FullyQualifiedName)).None?
    ensures ResolveFull(db, t, cache, visited) == Resolved([StripTemplate(t.AliasedType)], cache)
  {
  }

  /**
   * An alias whose target is found resolves the target's bases in the
   * alias's own namespace context, and the chain is cached under the
   * target's name, replacing whatever was cached for the target before.
   */
  lemma ResolveAliasCachesTarget(db: Registry, t: Type, cache: Cache, visited: set<string>, k: string)
    requires Keyed(db) && t.FullyQualifiedName in db && t.FullyQualifiedName !in cache && t.FullyQualifiedName !in visited
    requires t.IsAliased && LookupKey(db, StripTemplate(t.AliasedType), NamespaceContext(t.FullyQualifiedName)) == Some(k)
    requires ResolveFull(db, t, cache, visited).Resolved?
    ensures k in db
    ensures var r := ResolveFull(db, t, cache, visited);
      var bases := ResolveBases(db, db[k].Inherits, NamespaceContext(t.FullyQualifiedName), cache, visited + {t.FullyQualifiedName}, |db[k].Inherits|);
      && bases.Resolved?
      && r.chain == bases.chain
      && r.cache == bases.cache[k := r.chain]
  {
  }

  /** A type that is not an alias resolves its own bases, and the chain is cached under its own name. */
  lemma ResolvePlainCaches(db: Registry, t: Type, cache: Cache, visited: set<string>)
    requires Keyed(db) && t.FullyQualifiedName in db && t.FullyQualifiedName !in cache && t.FullyQualifiedName !in visited
    requires !t.IsAliased && ResolveFull(db, t, cache, visited).Resolved?
    ensures var r := ResolveFull(db, t, cache, visited);
      var bases := ResolveBases(db, t.Inherits, NamespaceContext(t.FullyQualifiedName), cache, visited + {t.FullyQualifiedName}, |t.Inherits|);
      && bases.Resolved?
      && r.chain == bases.chain
      && t.FullyQualifiedName in r.cache && r.cache[t.FullyQualifiedName] == r.chain
  {
  }

  /** A base that is not found (and has no '<' in last place) is kept verbatim, with nothing resolved after it. */
  lemma BaseUnresolved(db: Registry, b: string, ctx: string, cache: Cache, inProgress: set<string>)
    requires Keyed(db)
    requires IndexOf(b, '<') == -1 || IndexOf(b, '<') < |b| - 1
    requires Lookup(db, StripTemplate(b), ctx).None?
    ensures BaseStep(db, b, ctx, cache, inProgress) == Resolved([b], cache)
  {
  }

  /**
   * A found base that is not a template deriving from its own parameters
   * contributes its fully-qualified name with the original `<...>` suffix,
   * then its own chain.
   */
  lemma BaseFoundChain(db: Registry, b: string, ctx: string, cache: Cache, inProgress: set<string>, k: string)
    requires Keyed(db)
    requires IndexOf(b, '<') == -1 || IndexOf(b, '<') < |b| - 1
    requires LookupKey(db, StripTemplate(b), ctx) == Some(k) && !DerivesFromOwnParameter(db[k])
    ensures BaseStep(db, b, ctx, cache, inProgress) == Prepend([k + b[|StripTemplate(b)|..]], ResolveFull(db, db[k], cache, inProgress))
  {
    StrippedSuffix(b);
  }

  /**
   * A found template that derives from one of its own parameters
   * contributes its specialised name, then one entry per position of its
   * bases, and not its own chain.
   */
  lemma BaseFoundTemplate(db: Registry, b: string, ctx: string, cache: Cache, inProgress: set<string>, k: string)
    requires Keyed(db)
    requires IndexOf(b, '<') == -1 || IndexOf(b, '<') < |b| - 1
    requires LookupKey(db, StripTemplate(b), ctx) == Some(k) && DerivesFromOwnParameter(db[k])
    ensures var args := Split(if '<' in b then b[|StripTemplate(b)| + 1..|b| - 1] else "", {','});
      BaseStep(db, b, ctx, cache, inProgress) == Prepend([k + b[|StripTemplate(b)|..]], TemplatePositions(db, db[k], b, args, ctx, cache, inProgress, |db[k].Inherits|))
  {
    StrippedSuffix(b);
  }

  /** The suffix a base keeps after its stripped name: empty without a '<', else from the first '<' on. */
  lemma StrippedSuffix(b: string)
    ensures var ti := IndexOf(b, '<');
      && (ti == -1 ==> b[|StripTemplate(b)|..] == "" && '<' !in b)
      && (ti != -1 ==> |StripTemplate(b)| == ti && b[|StripTemplate(b)|..] == b[ti..] && '<' in b)
  {
  }

  // ---------------------------------------------------------------------------
  // Init: first-writer-wins registration, then the resolve pass.
  // ---------------------------------------------------------------------------

  /** The registry after inserting `parsed` in order, skipping names already registered. */
  function Register(db: Registry, parsed: seq<Type>): (r: Registry)
    requires Keyed(db)
    ensures Keyed(r)
  {
    if parsed == [] then db
    else
      var d := Register(db, parsed[..|parsed| - 1]);
      var t := parsed[|parsed| - 1];
      if t.FullyQualifiedName in d then d else d[t.FullyQualifiedName := t]
  }

  /** The position of the first parsed type with fully-qualified name `k`, or -1. */
  function FirstWithName(parsed: seq<Type>, k: string): (i: int)
    ensures -1 <= i < |parsed|
    ensures i >= 0 ==> parsed[i].FullyQualifiedName == k && forall j :: 0 <= j < i ==> parsed[j].FullyQualifiedName != k
    ensures i == -1 ==> forall j :: 0 <= j < |parsed| ==> parsed[j].FullyQualifiedName != k
  {
    if parsed == [] then -1
    else if parsed[0].FullyQualifiedName == k then 0
    else var i := FirstWithName(parsed[1..], k); if i == -1 then -1 else i + 1
  }

  /**
   * Insertion is first-writer-wins: a name registered before keeps its type,
   * and a new name gets the first parsed type that carries it; later
   * duplicates are skipped.
   */
  lemma {:induction false} RegisterFirstWriterWins(db: Registry, parsed: seq<Type>, k: string)
    requires Keyed(db)
    ensures k in db ==> k in Register(db, parsed) && Register(db, parsed)[k] == db[k]
    ensures k !in db && FirstWithName(parsed, k) >= 0 ==>
      k in Register(db, parsed) && Register(db, parsed)[k] == parsed[FirstWithName(parsed, k)]
    ensures k !in db && FirstWithName(parsed, k) == -1 ==> k !in Register(db, parsed)
  {
    if parsed != [] {
      var init := parsed[..|parsed| - 1];
      var t := parsed[|parsed| - 1];
      RegisterFirstWriterWins(db, init, k);
      FirstWithNamePrefix(parsed, k);
      var d := Register(db, init);
      assert Register(db, parsed) == if t.FullyQualifiedName in d then d else d[t.FullyQualifiedName := t];
    }
  }

  /** The registered names are the old ones and those of the parsed types. */
  lemma {:induction false} RegisterKeys(db: Registry, parsed: seq<Type>)
    requires Keyed(db)
    ensures forall k :: k in Register(db, parsed) <==> k in db || FirstWithName(parsed, k) >= 0
  {
    forall k ensures k in Register(db, parsed) <==> k in db || FirstWithName(parsed, k) >= 0 {
      RegisterFirstWriterWins(db, parsed, k);
    }
  }

  /** FirstWithName on a sequence and on it without its last element. */
  lemma {:induction false} FirstWithNamePrefix(parsed: seq<Type>, k: string)
    requires parsed != []
    ensures var init := parsed[..|parsed| - 1];
      && (FirstWithName(init, k) >= 0 ==> FirstWithName(parsed, k) == FirstWithName(init, k))
      && (FirstWithName(init, k) == -1 && parsed[|parsed| - 1].FullyQualifiedName == k ==> FirstWithName(parsed, k) == |parsed| - 1)
      && (FirstWithName(init, k) == -1 && parsed[|parsed| - 1].FullyQualifiedName != k ==> FirstWithName(parsed, k) == -1)
  {
    var init := parsed[..|parsed| - 1];
    assert forall j :: 0 <= j < |init| ==> init[j] == parsed[j];
  }

  /** `order` lists every registered name exactly once: an enumeration order of the dictionary. */
  predicate IsEnumerationOrder(order: seq<string>, keys: set<string>)
  {
    && (forall i :: 0 <= i < |order| ==> order[i] in keys)
    && (forall k :: k in keys ==> k in order)
    && (forall i, j :: 0 <= i < j < |order| ==> order[i] != order[j])
  }

  /**
   * The registry as the resolve pass sees it: the types registered before the
   * pass (`db0`), with the bases of every type already visited replaced by the
   * chain it received. The Type objects are shared, so each rewrite is seen by
   * every later step.
   */
  function Rewritten(db0: Registry, chains: map<string, seq<string>>): (db: Registry)
  {
    map k | k in db0 :: if k in chains then db0[k].(Inherits := chains[k]) else db0[k]
  }

  /** Rewriting bases keeps every name and every other part of each type. */
  lemma RewrittenKeepsKeys(db0: Registry, chains: map<string, seq<string>>)
    requires Keyed(db0)
    ensures var db := Rewritten(db0, chains);
      && Keyed(db) && db.Keys == db0.Keys
      && forall k :: k in db0 ==> SameButInherits(db[k], db0[k])
  {
  }

  /** Recording one more chain is storing the rewritten type under its name. */
  lemma RewrittenStep(db0: Registry, chains: map<string, seq<string>>, k: string, chain: seq<string>)
    requires k in db0
    ensures Rewritten(db0, chains[k := chain])
         == Rewritten(db0, chains)[k := Rewritten(db0, chains)[k].(Inherits := chain)]
  {
    var a := Rewritten(db0, chains[k := chain]);
    var b := Rewritten(db0, chains)[k := Rewritten(db0, chains)[k].(Inherits := chain)];
    assert a.Keys == b.Keys;
    forall k' | k' in a ensures a[k'] == b[k'] {
    }
  }

  /** The chains recorded so far, the shared cache, and the failure that stopped the pass, if any. */
  datatype PassState = PassState(chains: map<string, seq<string>>, cache: Cache, failure: Option<Failure>)

  /** The same type except possibly for its bases. */
  predicate SameButInherits(a: Type, b: Type)
  {
    a.(Inherits := b.Inherits) == b
  }

  /**
   * The resolve pass over the first `n` names of `order`: each type's bases
   * are replaced by the chain ResolveFull computes against the registry as
   * the earlier steps left it, with one cache shared by all steps; the first
   * failure stops the pass. Init hands it the registered names in the
   * dictionary's enumeration order; stated for any sequence of names, the
   * pass leaves a name that is not registered alone.
   */
  function ResolvePass(db0: Registry, order: seq<string>, n: nat): (s: PassState)
    requires Keyed(db0) && n <= |order|
    decreases n, 0
  {
    if n == 0 then PassState(map[], map[], None)
    else
      var s := ResolvePass(db0, order, n - 1);
      if s.failure.Some? || order[n - 1] !in db0 then s
      else
        var r := StepResult(db0, order, n - 1);
        if r.Failed? then PassState(s.chains, s.cache, Some(r.failure))
        else PassState(s.chains[order[n - 1] := r.chain], r.cache, None)
  }

  /** The chain the step at position `i` computes, against the registry the earlier steps left. */
  function StepResult(db0: Registry, order: seq<string>, i: nat): Resolution
    requires Keyed(db0) && i < |order| && order[i] in db0
    decreases i, 1
  {
    var before := ResolvePass(db0, order, i);
    ResolveAgainst(db0, before.chains, before.cache, order[i])
  }

  /** ResolveFull on the type registered as `k`, against the registry as rewritten so far. */
  function ResolveAgainst(db0: Registry, chains: map<string, seq<string>>, cache: Cache, k: string): Resolution
    requires Keyed(db0) && k in db0
  {
    RewrittenKeepsKeys(db0, chains);
    var db := Rewritten(db0, chains);
    ResolveFull(db, db[k], cache, {})
  }

  /** A step after which the pass has not failed followed a step that had not, and recorded its own chain. */
  lemma PassStepRecords(db0: Registry, order: seq<string>, n: nat)
    requires Keyed(db0) && n < |order| && order[n] in db0
    requires ResolvePass(db0, order, n + 1).failure.None?
    ensures ResolvePass(db0, order, n).failure.None?
    ensures StepResult(db0, order, n).Resolved?
    ensures ResolvePass(db0, order, n + 1).chains
         == ResolvePass(db0, order, n).chains[order[n] := StepResult(db0, order, n).chain]
  {
  }

  /** A step that resolves records its chain and moves the pass on. */
  lemma PassAdvances(db0: Registry, order: seq<string>, n: nat, chains: map<string, seq<string>>, cache: Cache)
    requires Keyed(db0) && n < |order| && order[n] in db0
    requires ResolvePass(db0, order, n) == PassState(chains, cache, None)
    requires StepResult(db0, order, n).Resolved?
    ensures var r := StepResult(db0, order, n);
      ResolvePass(db0, order, n + 1) == PassState(chains[order[n] := r.chain], r.cache, None)
  {
  }

  /** A step that fails ends the pass with that failure and the chains recorded before it. */
  lemma PassStops(db0: Registry, order: seq<string>, n: nat, chains: map<string, seq<string>>, cache: Cache)
    requires Keyed(db0) && n < |order| && order[n] in db0
    requires ResolvePass(db0, order, n) == PassState(chains, cache, None)
    requires StepResult(db0, order, n).Failed?
    ensures ResolvePass(db0, order, |order|) == PassState(chains, cache, Some(StepResult(db0, order, n).failure))
  {
    PassFails(db0, order, n, chains, cache);
    ResolvePassFailureSticks(db0, order, n + 1, |order|);
  }

  /** The step that fails records its failure and nothing else. */
  lemma PassFails(db0: Registry, order: seq<string>, n: nat, chains: map<string, seq<string>>, cache: Cache)
    requires Keyed(db0) && n < |order| && order[n] in db0
    requires ResolvePass(db0, order, n) == PassState(chains, cache, None)
    requires StepResult(db0, order, n).Failed?
    ensures ResolvePass(db0, order, n + 1) == PassState(chains, cache, Some(StepResult(db0, order, n).failure))
  {
  }

  /** Once a step of the resolve pass fails, the pass stops there. */
  lemma {:induction false} ResolvePassFailureSticks(db0: Registry, order: seq<string>, i: nat, n: nat)
    requires Keyed(db0) && i <= n <= |order|
    requires ResolvePass(db0, order, i).failure.Some?
    ensures ResolvePass(db0, order, n) == ResolvePass(db0, order, i)
    decreases n
  {
    if n > i {
      ResolvePassFailureSticks(db0, order, i, n - 1);
    }
  }

  /** Only visited names have a recorded chain. */
  lemma {:induction false} ResolvePassLeavesUnvisited(db0: Registry, order: seq<string>, n: nat, k: string)
    requires Keyed(db0) && n <= |order|
    requires forall j :: 0 <= j < n ==> order[j] != k
    ensures k !in ResolvePass(db0, order, n).chains
  {
    if n > 0 {
      ResolvePassLeavesUnvisited(db0, order, n - 1, k);
    }
  }

  /**
   * When the pass gets through its first `n` steps, every name visited so far
   * holds the chain its own step computed, and later steps never touch it
   * again.
   */
  lemma {:induction false} ResolvePassRewritesVisited(db0: Registry, order: seq<string>, n: nat, i: nat)
    requires Keyed(db0) && i < n <= |order| && order[i] in db0
    requires forall j :: 0 <= j < n ==> order[j] != order[i] || j == i
    requires ResolvePass(db0, order, n).failure.None?
    ensures StepResult(db0, order, i).Resolved?
    ensures order[i] in ResolvePass(db0, order, n).chains
    ensures ResolvePass(db0, order, n).chains[order[i]] == StepResult(db0, order, i).chain
    decreases n
  {
    if i == n - 1 {
      PassStepRecords(db0, order, i);
    } else {
      PassKeepsRecord(db0, order, n - 1, order[i]);
      ResolvePassRewritesVisited(db0, order, n - 1, i);
    }
  }

  /** A step for another name leaves a recorded chain as it was. */
  lemma PassKeepsRecord(db0: Registry, order: seq<string>, n: nat, k: string)
    requires Keyed(db0) && n < |order| && order[n] != k
    requires ResolvePass(db0, order, n + 1).failure.None?
    ensures ResolvePass(db0, order, n).failure.None?
    ensures k in ResolvePass(db0, order, n).chains ==>
      k in ResolvePass(db0, order, n + 1).chains
      && ResolvePass(db0, order, n + 1).chains[k] == ResolvePass(db0, order, n).chains[k]
  {
    if order[n] in db0 {
      PassStepRecords(db0, order, n);
    }
  }

  /**
   * A pass over an enumeration order that does not fail gives every
   * registered type the chain of its own step, and leaves every other part
   * of the type as it was registered.
   */
  lemma ResolvePassRewritesAll(db0: Registry, order: seq<string>, k: string)
    requires Keyed(db0) && IsEnumerationOrder(order, db0.Keys)
    requires ResolvePass(db0, order, |order|).failure.None?
    requires k in db0
    ensures var db := Rewritten(db0, ResolvePass(db0, order, |order|).chains);
      exists i :: 0 <= i < |order| && order[i] == k && StepResult(db0, order, i).Resolved?
        && db[k] == db0[k].(Inherits := StepResult(db0, order, i).chain)
  {
    var i :| 0 <= i < |order| && order[i] == k;
    ResolvePassRewritesVisited(db0, order, |order|, i);
  }

  // ---------------------------------------------------------------------------
  // The database object.
  // ---------------------------------------------------------------------------

  /** TypeDatabase: the registry and the global functions, filled by Init. */
  class TypeDatabase {
    var types: map<string, Type>
    var globalFunctions: seq<Function>

    /** Every registered type is stored under its own fully-qualified name. */
    predicate Valid()
      reads this
    {
      Keyed(types)
    }

    constructor()
      ensures Valid() && types == map[] && globalFunctions == []
    {
      types := map[];
      globalFunctions := [];
    }

    /**
     * TypeDatabase.Init on the types and global functions the parser produced,
     * taken in the order given; `order` is the order in which the dictionary
     * enumerates its values during the resolve pass.
     */
    method Init(parsedTypes: seq<Type>, parsedGlobalFunctions: seq<Function>, order: seq<string>)
      returns (failure: Option<Failure>)
      requires Valid()
      requires IsEnumerationOrder(order, Register(types, parsedTypes).Keys)
      modifies this
      ensures Valid()
      ensures globalFunctions == old(globalFunctions) + parsedGlobalFunctions
      ensures var db0 := Register(old(types), parsedTypes);
        var s := ResolvePass(db0, order, |order|);
        types == Rewritten(db0, s.chains) && failure == s.failure
    {
      globalFunctions := globalFunctions + parsedGlobalFunctions;
      var registered := types;
      for i := 0 to |parsedTypes|
        invariant Keyed(types)
        invariant globalFunctions == old(globalFunctions) + parsedGlobalFunctions
        invariant types == Register(registered, parsedTypes[..i])
      {
        assert parsedTypes[..i + 1][..i] == parsedTypes[..i];
        var t := parsedTypes[i];
        if t.FullyQualifiedName in types {
          continue;
        }
        types := types[t.FullyQualifiedName := t];
      }
      assert parsedTypes[..|parsedTypes|] == parsedTypes;
      ghost var db0 := types;
      ghost var chains: map<string, seq<string>> := map[];
      var cache: Cache := map[];
      failure := None;
      for n := 0 to |order|
        invariant Keyed(db0) && db0 == Register(registered, parsedTypes)
        invariant globalFunctions == old(globalFunctions) + parsedGlobalFunctions
        invariant ResolvePass(db0, order, n) == PassState(chains, cache, None)
        invariant types == Rewritten(db0, chains)
        invariant failure == None
      {
        RewrittenKeepsKeys(db0, chains);
        var k := order[n];
        var r := ResolveFullInheritance(types[k], cache, {});
        assert r == StepResult(db0, order, n);
        if r.Failed? {
          failure := Some(r.failure);
          PassStops(db0, order, n, chains, cache);
          return;
        }
        PassAdvances(db0, order, n, chains, cache);
        RewrittenStep(db0, chains, k, r.chain);
        types := types[k := types[k].(Inherits := r.chain)];
        chains := chains[k := r.chain];
        cache := r.cache;
      }
      RewrittenKeepsKeys(db0, chains);
    }

    /** Registered names, as `types.Values`: each returned type is the one stored under its own name. */
    function GetTypes(): (r: set<Type>)
      reads this
      ensures forall k :: k in types ==> types[k] in r
      ensures Valid() ==> forall t :: t in r ==> t.FullyQualifiedName in types && types[t.FullyQualifiedName] == t
    {
      types.Values
    }

    /** GetDerivedTypes(b): the registered types whose (resolved) bases contain `b` exactly. */
    function GetDerivedTypes(baseClass: string): (r: set<Type>)
      reads this
      ensures forall t :: t in r <==> t in types.Values && IsDerivedFrom(t, baseClass)
    {
      set t | t in types.Values && baseClass in t.Inherits
    }

    /** GetTypesDerivedFromTemplate(t): the registered types with some base that starts with `t<`. */
    function GetTypesDerivedFromTemplate(templateBaseClass: string): (r: set<Type>)
      reads this
      ensures forall t :: t in r <==> t in types.Values && exists i :: 0 <= i < |t.Inherits| && templateBaseClass + "<" <= t.Inherits[i]
    {
      set t | t in types.Values && exists i :: 0 <= i < |t.Inherits| && templateBaseClass + "<" <= t.Inherits[i]
    }

    /** ResolveTypeName: the exact name, then `ctx::name`, then the enclosing scopes from the innermost outwards. */
    method ResolveTypeName(typeName: string, namespaceContext: string) returns (r: Option<Type>)
      ensures r == Lookup(types, typeName, namespaceContext)
    {
      LookupOrder(types, typeName, namespaceContext);
      if typeName in types {
        return Some(types[typeName]);
      }
      var currentNamespace := namespaceContext;
      var fullyQualifiedTypeName := currentNamespace + "::" + typeName;
      if fullyQualifiedTypeName in types {
        return Some(types[fullyQualifiedTypeName]);
      }
      while LastIndexOfSeparator(currentNamespace) != -1
        invariant LookupKey(types, typeName, namespaceContext) == FirstKey(types, ScopeCandidates(currentNamespace, typeName))
        decreases |currentNamespace|
      {
        var i := LastIndexOfSeparator(currentNamespace);
        fullyQualifiedTypeName := currentNamespace[..i + 2] + typeName;
        var rest := ScopeCandidates(currentNamespace[..i], typeName);
        assert ([fullyQualifiedTypeName] + rest)[1..] == rest;
        if fullyQualifiedTypeName in types {
          return Some(types[fullyQualifiedTypeName]);
        }
        currentNamespace := currentNamespace[..i];
      }
      return None;
    }

    /**
     * ResolveFullInhertiance(t, cache), with the set of types in progress on
     * the current call path standing guard against unbounded recursion.
     */
    method ResolveFullInheritance(t: Type, cache: Cache, visited: set<string>) returns (r: Resolution)
      requires Valid() && t.FullyQualifiedName in types
      ensures r == ResolveFull(types, t, cache, visited)
      decreases |types.Keys - visited|, 6
    {
      var fullyQualifiedName := t.FullyQualifiedName;
      if fullyQualifiedName in cache {
        return Resolved(cache[fullyQualifiedName], cache);
      }
      if fullyQualifiedName in visited {
        return Failed(CyclicInheritance(fullyQualifiedName));
      }
      var namespaceContext := NamespaceContext(fullyQualifiedName);
      var inProgress := visited + {fullyQualifiedName};
      VisitShrinks(types.Keys, visited, fullyQualifiedName);
      var typ := t;
      if t.IsAliased {
        var aliasedTypeName := StripTemplate(t.AliasedType);
        var aliasedType := ResolveTypeName(aliasedTypeName, namespaceContext);
        if aliasedType.None? {
          return Resolved([aliasedTypeName], cache);
        }
        typ := aliasedType.value;
      }
      var bases := typ.Inherits;
      var chain := ResolveBaseList(bases, namespaceContext, cache, inProgress);
      if chain.Failed? {
        return chain;
      }
      return Resolved(chain.chain, chain.cache[typ.FullyQualifiedName := chain.chain]);
    }

    /** The loop over the declared bases, appending each base's chain and threading the cache. */
    method ResolveBaseList(bases: seq<string>, namespaceContext: string, cache: Cache, inProgress: set<string>)
      returns (r: Resolution)
      requires Valid()
      ensures r == ResolveBases(types, bases, namespaceContext, cache, inProgress, |bases|)
      decreases |types.Keys - inProgress| + 1, 4
    {
      var inheritanceChain: seq<string> := [];
      var c := cache;
      for i := 0 to |bases|
        invariant ResolveBases(types, bases, namespaceContext, cache, inProgress, i) == Resolved(inheritanceChain, c)
      {
        var step := ResolveBase(bases[i], namespaceContext, c, inProgress);
        ResolveBasesStep(types, bases, namespaceContext, cache, inProgress, i, inheritanceChain, c);
        if step.Failed? {
          ResolveBasesFailureSticks(types, bases, namespaceContext, cache, inProgress, i + 1, |bases|);
          return step;
        }
        inheritanceChain := inheritanceChain + step.chain;
        c := step.cache;
      }
      return Resolved(inheritanceChain, c);
    }

    /** The body of the loop over the declared bases (one base). */
    method ResolveBase(baseClass: string, namespaceContext: string, cache: Cache, inProgress: set<string>)
      returns (r: Resolution)
      requires Valid()
      ensures r == BaseStep(types, baseClass, namespaceContext, cache, inProgress)
      decreases |types.Keys - inProgress| + 1, 3, 1
    {
      var templateIndex := IndexOf(baseClass, '<');
      var strippedTemplate := baseClass;
      var templateParameters := "";
      if templateIndex != -1 {
        if templateIndex + 1 > |baseClass| - 1 {
          return Failed(BaseSubstringOutOfRange(baseClass));
        }
        strippedTemplate := baseClass[..templateIndex];
        templateParameters := baseClass[templateIndex + 1..|baseClass| - 1];
      }
      var baseType := ResolveTypeName(strippedTemplate, namespaceContext);
      if baseType.None? {
        return Resolved([baseClass], cache);
      }
      var u := baseType.value;
      ghost var k := LookupKey(types, strippedTemplate, namespaceContext).value;
      assert u == types[k];
      var baseFullyQualifiedName := u.FullyQualifiedName;
      if templateIndex != -1 {
        baseFullyQualifiedName := baseFullyQualifiedName + baseClass[templateIndex..];
      }
      r := ResolveFoundBase(baseClass, templateIndex, templateParameters, u, baseFullyQualifiedName, namespaceContext, cache, inProgress);
    }

    /** What ResolveBase does once the base's name is registered: `u` is the type found. */
    method ResolveFoundBase(baseClass: string, templateIndex: int, templateParameters: string, u: Type,
                            baseFullyQualifiedName: string, namespaceContext: string, cache: Cache, inProgress: set<string>)
      returns (r: Resolution)
      requires Valid() && u.FullyQualifiedName in types && types[u.FullyQualifiedName] == u
      requires templateIndex == -1 || 0 <= templateIndex <= |baseClass| - 2
      requires templateParameters == if templateIndex == -1 then "" else baseClass[templateIndex + 1..|baseClass| - 1]
      requires baseFullyQualifiedName == u.FullyQualifiedName + (if templateIndex == -1 then "" else baseClass[templateIndex..])
      ensures r == BaseFound(types, baseClass, templateIndex, u.FullyQualifiedName, namespaceContext, cache, inProgress)
      decreases |types.Keys - inProgress| + 1, 3, 0
    {
      if DerivesFromOwnParameter(u) {
        var templateArguments := Split(templateParameters, {','});
        var chain := ResolveTemplateBases(u, baseClass, templateArguments, namespaceContext, cache, inProgress);
        if chain.Failed? {
          return chain;
        }
        return Resolved([baseFullyQualifiedName] + chain.chain, chain.cache);
      }
      var rest := ResolveFullInheritance(u, cache, inProgress);
      if rest.Failed? {
        return rest;
      }
      return Resolved([baseFullyQualifiedName] + rest.chain, rest.cache);
    }

    /**
     * The bases of a template that derives from one of its own parameters,
     * each parameter replaced by the argument at the same position.
     */
    method ResolveTemplateBases(u: Type, baseClass: string, templateArguments: seq<string>, namespaceContext: string,
                                cache: Cache, inProgress: set<string>)
      returns (r: Resolution)
      requires Valid() && u.TemplateParameters.Some?
      ensures r == TemplatePositions(types, u, baseClass, templateArguments, namespaceContext, cache, inProgress, |u.Inherits|)
      decreases |types.Keys - inProgress| + 1, 2
    {
      var chain: seq<string> := [];
      var c := cache;
      for i := 0 to |u.Inherits|
        invariant TemplatePositions(types, u, baseClass, templateArguments, namespaceContext, cache, inProgress, i)
          == Resolved(chain, c)
      {
        var position := ResolveTemplatePosition(u, baseClass, templateArguments, namespaceContext, c, inProgress, i);
        TemplatePositionsStep(types, u, baseClass, templateArguments, namespaceContext, cache, inProgress, i, chain, c);
        if position.Failed? {
          TemplatePositionsFailureSticks(types, u, baseClass, templateArguments, namespaceContext, cache, inProgress, i + 1, |u.Inherits|);
          return position;
        }
        chain := chain + position.chain;
        c := position.cache;
      }
      return Resolved(chain, c);
    }

    /** Position `i` of the template's bases: the argument at `i` for a parameter, the base itself otherwise. */
    method ResolveTemplatePosition(u: Type, baseClass: string, templateArguments: seq<string>, namespaceContext: string,
                                   cache: Cache, inProgress: set<string>, i: nat)
      returns (r: Resolution)
      requires Valid() && u.TemplateParameters.Some? && i < |u.Inherits|
      ensures r == TemplatePosition(types, u, baseClass, templateArguments, namespaceContext, cache, inProgress, i)
      decreases |types.Keys - inProgress| + 1, 1
    {
      if u.Inherits[i] in u.TemplateParameters.value {
        if i >= |templateArguments| {
          return Failed(TemplateArgumentOutOfRange(baseClass, i));
        }
        r := ResolveNamedBase(templateArguments[i], namespaceContext, cache, inProgress);
      } else {
        r := ResolveNamedBase(u.Inherits[i], namespaceContext, cache, inProgress);
      }
    }

    /** A base name looked up and, when registered, followed by its own chain. */
    method ResolveNamedBase(name: string, namespaceContext: string, cache: Cache, inProgress: set<string>)
      returns (r: Resolution)
      requires Valid()
      ensures r == ResolveNamed(types, name, namespaceContext, cache, inProgress)
      decreases |types.Keys - inProgress| + 1, 0
    {
      var found := ResolveTypeName(name, namespaceContext);
      if found.None? {
        return Resolved([name], cache);
      }
      var rest := ResolveFullInheritance(found.value, cache, inProgress);
      if rest.Failed? {
        return rest;
      }
      return Resolved([found.value.FullyQualifiedName] + rest.chain, rest.cache);
    }
  }

  /** One more base: its step is appended to the chain of the ones before it. */
  lemma ResolveBasesStep(db: Registry, bases: seq<string>, ctx: string, cache: Cache, inProgress: set<string>,
                         i: nat, chain: seq<string>, c: Cache)
    requires Keyed(db) && i < |bases|
    requires ResolveBases(db, bases, ctx, cache, inProgress, i) == Resolved(chain, c)
    ensures ResolveBases(db, bases, ctx, cache, inProgress, i + 1) == Prepend(chain, BaseStep(db, bases[i], ctx, c, inProgress))
  {
  }

  /** One more template position: its chain is appended to the ones before it. */
  lemma TemplatePositionsStep(db: Registry, u: Type, b: string, args: seq<string>, ctx: string, cache: Cache,
                              inProgress: set<string>, i: nat, chain: seq<string>, c: Cache)
    requires Keyed(db) && u.TemplateParameters.Some? && i < |u.Inherits|
    requires TemplatePositions(db, u, b, args, ctx, cache, inProgress, i) == Resolved(chain, c)
    ensures TemplatePositions(db, u, b, args, ctx, cache, inProgress, i + 1)
      == Prepend(chain, TemplatePosition(db, u, b, args, ctx, c, inProgress, i))
  {
  }

  /** Once the bases fail, the remaining ones are not looked at. */
  lemma {:induction false} ResolveBasesFailureSticks(db: Registry, bases: seq<string>, ctx: string, cache: Cache,
                                                    inProgress: set<string>, i: nat, n: nat)
    requires Keyed(db) && i <= n <= |bases|
    requires ResolveBases(db, bases, ctx, cache, inProgress, i).Failed?
    ensures ResolveBases(db, bases, ctx, cache, inProgress, n) == ResolveBases(db, bases, ctx, cache, inProgress, i)
    decreases n
  {
    if n > i {
      ResolveBasesFailureSticks(db, bases, ctx, cache, inProgress, i, n - 1);
    }
  }

  /** Once a template position fails, the remaining ones are not looked at. */
  lemma {:induction false} TemplatePositionsFailureSticks(db: Registry, u: Type, b: string, args: seq<string>, ctx: string,
                                                         cache: Cache, inProgress: set<string>, i: nat, n: nat)
    requires Keyed(db) && u.TemplateParameters.Some? && i <= n <= |u.Inherits|
    requires TemplatePositions(db, u, b, args, ctx, cache, inProgress, i).Failed?
    ensures TemplatePositions(db, u, b, args, ctx, cache, inProgress, n) == TemplatePositions(db, u, b, args, ctx, cache, inProgress, i)
    decreases n
  {
    if n > i {
      TemplatePositionsFailureSticks(db, u, b, args, ctx, cache, inProgress, i, n - 1);
    }
  }
}
