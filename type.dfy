/**
 * A parsed C++ type as the type database stores it, and its queries over the
 * captured functions (common/type.cs, common/templatetype.cs).
 */
module Types {
  import opened Wrappers
  import opened Functions

  /**
   * A parsed type. `TemplateParameters` is `Some` exactly for a TemplateType,
   * and then holds its parameter names in declaration order.
   */
  datatype Type = Type(
    Name: string,
    FullyQualifiedName: string,
    Namespace: string,
    AbsolutePath: string,
    IncludePath: string,
    AliasedType: string,
    IsAliased: bool,
    HasTypeId: bool,
    Inherits: seq<string>,
    Functions: seq<Function>,
    TemplateParameters: Option<seq<string>>)

  /** A TemplateType rather than a plain Type. */
  predicate IsTemplate(t: Type)
  {
    t.TemplateParameters.Some?
  }

  /** Number of parameters: the key of every OrderBy in the queries. */
  function Arity(f: Function): nat
  {
    |f.Parameters|
  }

  // ---------------------------------------------------------------------------
  // Where and a stable OrderBy on the parameter count.
  // ---------------------------------------------------------------------------

  /** functions.Where(f => f.Name == n), in declaration order. */
  function Named(fs: seq<Function>, n: string): (r: seq<Function>)
    ensures |r| <= |fs|
    ensures forall f: Function :: f in r <==> f in fs && f.Name == n
    ensures forall f: Function :: f.Name == n ==> multiset(r)[f] == multiset(fs)[f]
    ensures forall f: Function :: f.Name != n ==> multiset(r)[f] == 0
  {
    if fs == [] then []
    else
      assert fs == [fs[0]] + fs[1..];
      (if fs[0].Name == n then [fs[0]] else []) + Named(fs[1..], n)
  }

  /** functions.Where(f => f.Name == "Create" && f.IsStatic), in declaration order. */
  function StaticCreate(fs: seq<Function>): (r: seq<Function>)
    ensures |r| <= |fs|
    ensures forall f: Function :: f in r <==> f in fs && f.Name == "Create" && f.IsStatic
    ensures forall f: Function :: f.Name == "Create" && f.IsStatic ==> multiset(r)[f] == multiset(fs)[f]
    ensures forall f: Function :: !(f.Name == "Create" && f.IsStatic) ==> multiset(r)[f] == 0
  {
    if fs == [] then []
    else
      assert fs == [fs[0]] + fs[1..];
      (if fs[0].Name == "Create" && fs[0].IsStatic then [fs[0]] else []) + StaticCreate(fs[1..])
  }

  /** The functions of arity `k`, in order: the ties that a stable sort must keep in place. */
  function WithArity(fs: seq<Function>, k: nat): seq<Function>
  {
    if fs == [] then []
    else (if Arity(fs[0]) == k then [fs[0]] else []) + WithArity(fs[1..], k)
  }

  /** Non-decreasing parameter count. */
  predicate SortedByArity(fs: seq<Function>)
  {
    forall i, j :: 0 <= i < j < |fs| ==> Arity(fs[i]) <= Arity(fs[j])
  }

  /** Puts `f` before the first function that has at least its arity. */
  function InsertByArity(f: Function, s: seq<Function>): (r: seq<Function>)
    ensures |r| == |s| + 1
    ensures multiset(r) == multiset(s) + multiset{f}
  {
    if s == [] || Arity(f) <= Arity(s[0]) then [f] + s
    else
      assert s == [s[0]] + s[1..];
      [s[0]] + InsertByArity(f, s[1..])
  }

  /** Inserting into a sorted sequence keeps it sorted. */
  lemma {:induction false} InsertByArityKeepsSorted(f: Function, s: seq<Function>)
    requires SortedByArity(s)
    ensures SortedByArity(InsertByArity(f, s))
  {
    if s != [] && Arity(f) > Arity(s[0]) {
      var t := InsertByArity(f, s[1..]);
      InsertByArityKeepsSorted(f, s[1..]);
      forall j | 0 <= j < |t| ensures Arity(s[0]) <= Arity(t[j]) {
        assert t[j] in multiset(t);
        if t[j] != f {
          assert t[j] in multiset(s[1..]);
          var i :| 0 <= i < |s[1..]| && s[1..][i] == t[j];
          assert s[i + 1] == t[j];
        }
      }
      var r := [s[0]] + t;
      assert forall i :: 1 <= i < |r| ==> r[i] == t[i - 1];
    }
  }

  /** Enumerable.OrderBy(f => f.Parameters.Count): a stable sort by arity. */
  function OrderByArity(fs: seq<Function>): (r: seq<Function>)
    ensures |r| == |fs|
    ensures SortedByArity(r)
    ensures multiset(r) == multiset(fs)
  {
    if fs == [] then []
    else
      assert fs == [fs[0]] + fs[1..];
      InsertByArityKeepsSorted(fs[0], OrderByArity(fs[1..]));
      InsertByArity(fs[0], OrderByArity(fs[1..]))
  }

  /** Inserting keeps every other arity's functions in place and puts `f` first among its own. */
  lemma {:induction false} InsertByArityKeepsTies(f: Function, s: seq<Function>, k: nat)
    ensures WithArity(InsertByArity(f, s), k) == (if Arity(f) == k then [f] else []) + WithArity(s, k)
  {
    if s == [] || Arity(f) <= Arity(s[0]) {
      assert ([f] + s)[1..] == s;
    } else {
      InsertByArityKeepsTies(f, s[1..], k);
      var t := InsertByArity(f, s[1..]);
      assert ([s[0]] + t)[1..] == t;
    }
  }

  /** OrderBy is stable: functions of equal arity keep their declaration order. */
  lemma {:induction false} OrderByArityIsStable(fs: seq<Function>, k: nat)
    ensures WithArity(OrderByArity(fs), k) == WithArity(fs, k)
  {
    if fs != [] {
      OrderByArityIsStable(fs[1..], k);
      InsertByArityKeepsTies(fs[0], OrderByArity(fs[1..]), k);
    }
  }

  // ---------------------------------------------------------------------------
  // The queries of Type.
  // ---------------------------------------------------------------------------

  /** Type.GetConstructors: the functions named like the type, by ascending arity. */
  function GetConstructors(t: Type): seq<Function>
  {
    OrderByArity(Named(t.Functions, t.Name))
  }

  /** Type.GetConstructorsOrStaticCreate: the constructors if any, else the static Create functions. */
  function GetConstructorsOrStaticCreate(t: Type): seq<Function>
  {
    var constructors := Named(t.Functions, t.Name);
    if constructors != [] then OrderByArity(constructors)
    else OrderByArity(StaticCreate(t.Functions))
  }

  /** Type.GetFunctions(name): the functions called `n`, by ascending arity. */
  function GetFunctions(t: Type, n: string): seq<Function>
  {
    OrderByArity(Named(t.Functions, n))
  }

  /** Type.IsDerivedFrom(n): `n` is one of the (resolved) base names. */
  predicate IsDerivedFrom(t: Type, n: string)
  {
    n in t.Inherits
  }

  /**
   * GetFunctions(n) holds exactly the functions named `n`, each as often as it
   * is declared, by ascending arity, and functions of equal arity in
   * declaration order.
   */
  lemma GetFunctionsSpec(t: Type, n: string)
    ensures var r := GetFunctions(t, n);
      && SortedByArity(r)
      && (forall f: Function :: f in r <==> f in t.Functions && f.Name == n)
      && (forall f: Function :: multiset(r)[f] == if f.Name == n then multiset(t.Functions)[f] else 0)
      && (forall k: nat :: WithArity(r, k) == WithArity(Named(t.Functions, n), k))
  {
    var r := GetFunctions(t, n);
    forall k: nat ensures WithArity(r, k) == WithArity(Named(t.Functions, n), k) {
      OrderByArityIsStable(Named(t.Functions, n), k);
    }
    forall f: Function ensures f in r <==> f in t.Functions && f.Name == n {
      assert f in r <==> f in multiset(r);
    }
  }

  /** GetConstructors is GetFunctions for the type's own name. */
  lemma GetConstructorsSpec(t: Type)
    ensures var r := GetConstructors(t);
      && SortedByArity(r)
      && (forall f: Function :: f in r <==> f in t.Functions && f.Name == t.Name)
      && (forall f: Function :: multiset(r)[f] == if f.Name == t.Name then multiset(t.Functions)[f] else 0)
      && (forall k: nat :: WithArity(r, k) == WithArity(Named(t.Functions, t.Name), k))
  {
    GetFunctionsSpec(t, t.Name);
  }

  /**
   * GetConstructorsOrStaticCreate gives the constructors whenever one exists;
   * otherwise exactly the static functions named "Create" (a non-static Create
   * is never returned), by ascending arity and stable on ties.
   */
  lemma GetConstructorsOrStaticCreateSpec(t: Type)
    ensures var r := GetConstructorsOrStaticCreate(t);
      && SortedByArity(r)
      && ((exists f: Function :: f in t.Functions && f.Name == t.Name) ==> r == GetConstructors(t))
      && ((forall f: Function :: f in t.Functions ==> f.Name != t.Name) ==>
            && (forall f: Function :: f in r <==> f in t.Functions && f.Name == "Create" && f.IsStatic)
            && (forall f: Function :: multiset(r)[f] == if f.Name == "Create" && f.IsStatic then multiset(t.Functions)[f] else 0)
            && (forall k: nat :: WithArity(r, k) == WithArity(StaticCreate(t.Functions), k)))
  {
    var r := GetConstructorsOrStaticCreate(t);
    if forall f: Function :: f in t.Functions ==> f.Name != t.Name {
      var sc := StaticCreate(t.Functions);
      assert Named(t.Functions, t.Name) == [];
      forall k: nat ensures WithArity(r, k) == WithArity(sc, k) {
        OrderByArityIsStable(sc, k);
      }
      forall f: Function ensures f in r <==> f in t.Functions && f.Name == "Create" && f.IsStatic {
        assert f in r <==> f in multiset(r);
      }
    } else {
      var f :| f in t.Functions && f.Name == t.Name;
      assert f in Named(t.Functions, t.Name);
    }
  }
}
