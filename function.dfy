/**
 * Functions and their parameters as captured from a type body, their textual
 * forms, and ReduceToConvertible, which keeps one parameter per type name
 * (common/function.cs).
 */
module Functions {
  import opened Wrappers
  import opened Strings

  /** One parameter: qualifiers, the declared type name and the derived local name. */
  datatype FunctionParameter = FunctionParameter(
    IsConst: bool,
    IsReference: bool,
    IsPointer: bool,
    Name: string,
    TypeName: string)

  /** A function captured from a type body or a namespace. */
  datatype Function = Function(
    Name: string,
    Namespace: string,
    IsStatic: bool,
    Parameters: seq<FunctionParameter>)

  /** Length of the optional "const " prefix of a parameter's text. */
  function ConstPrefixLength(p: FunctionParameter): nat
  {
    if p.IsConst then 6 else 0
  }

  /** FunctionParameter.ToStringWithoutName: "const " if const, the type, "&" if a reference, "*" if a pointer. */
  function ToStringWithoutName(p: FunctionParameter): (r: string)
    ensures |r| == ConstPrefixLength(p) + |p.TypeName| + (if p.IsReference then 1 else 0) + (if p.IsPointer then 1 else 0)
    ensures p.IsConst ==> r[..6] == "const "
    ensures r[ConstPrefixLength(p)..ConstPrefixLength(p) + |p.TypeName|] == p.TypeName
    ensures p.IsReference ==> r[ConstPrefixLength(p) + |p.TypeName|] == '&'
    ensures p.IsPointer ==> r[|r| - 1] == '*'
    ensures !p.IsReference && !p.IsPointer ==> r == r[..ConstPrefixLength(p)] + p.TypeName
  {
    (if p.IsConst then "const " else "")
    + p.TypeName
    + (if p.IsReference then "&" else "")
    + (if p.IsPointer then "*" else "")
  }

  /** FunctionParameter.ToString: the declaration text followed by a space and the name. */
  function ParameterToString(p: FunctionParameter): (r: string)
    ensures r == ToStringWithoutName(p) + " " + p.Name
    ensures r[..|r| - |p.Name| - 1] == ToStringWithoutName(p)
  {
    (if p.IsConst then "const " else "")
    + p.TypeName
    + (if p.IsReference then "&" else "")
    + (if p.IsPointer then "*" else "")
    + " " + p.Name
  }

  /** The texts of a parameter list, in order. */
  function ParameterTexts(ps: seq<FunctionParameter>): (r: seq<string>)
    ensures |r| == |ps|
    ensures forall i :: 0 <= i < |ps| ==> r[i] == ParameterToString(ps[i])
  {
    if ps == [] then [] else [ParameterToString(ps[0])] + ParameterTexts(ps[1..])
  }

  /** Function.ToString: "Namespace::Name( p1, p2 )". */
  function FunctionToString(f: Function): (r: string)
    ensures |r| >= |f.Namespace| + |f.Name| + 6
    ensures r[..|f.Namespace| + 2] == f.Namespace + "::"
    ensures r[|f.Namespace| + 2..|f.Namespace| + 2 + |f.Name|] == f.Name
    ensures r[|r| - 2..] == " )"
    ensures r[|f.Namespace| + 2 + |f.Name|..|f.Namespace| + 4 + |f.Name|] == "( "
    ensures r[|f.Namespace| + 4 + |f.Name|..|r| - 2] == Join(ParameterTexts(f.Parameters), ", ")
  {
    var head := f.Namespace + "::" + f.Name + "( ";
    var list := Join(ParameterTexts(f.Parameters), ", ");
    assert (head + list + " )")[|head|..|head| + |list|] == list;
    head + list + " )"
  }

  /**
   * The parameter list of a function's text reads back as its parameters'
   * texts, split at the commas and trimmed, when no parameter text holds a
   * comma or starts or ends in white space.
   */
  lemma FunctionToStringParameters(f: Function)
    requires forall i :: 0 <= i < |f.Parameters| ==>
      Trimmed(ParameterToString(f.Parameters[i])) && ',' !in ParameterToString(f.Parameters[i])
    ensures var r := FunctionToString(f);
      SplitTrimmed(r[|f.Namespace| + 4 + |f.Name|..|r| - 2], {','}) == ParameterTexts(f.Parameters)
  {
    SplitTrimmedJoin(ParameterTexts(f.Parameters));
  }


  // ---------------------------------------------------------------------------
  // ReduceToConvertible: GroupBy(TypeName) then, per group, the first non-const
  // parameter if there is one, else the group's first element.
  // ---------------------------------------------------------------------------

  /** The parameters whose type name is `n`, in input order (one group of GroupBy). */
  function WithTypeName(ps: seq<FunctionParameter>, n: string): (g: seq<FunctionParameter>)
    ensures |g| <= |ps|
    ensures forall i :: 0 <= i < |g| ==> g[i].TypeName == n && g[i] in ps
  {
    if ps == [] then []
    else (if ps[0].TypeName == n then [ps[0]] else []) + WithTypeName(ps[1..], n)
  }

  /** The parameters whose type name is not `n`, in input order. */
  function WithoutTypeName(ps: seq<FunctionParameter>, n: string): (g: seq<FunctionParameter>)
    ensures |g| <= |ps|
    ensures forall i :: 0 <= i < |g| ==> g[i].TypeName != n && g[i] in ps
  {
    if ps == [] then []
    else (if ps[0].TypeName != n then [ps[0]] else []) + WithoutTypeName(ps[1..], n)
  }

  /** Enumerable.GroupBy(p => p.TypeName): groups in order of their key's first occurrence. */
  function GroupByTypeName(ps: seq<FunctionParameter>): (gs: seq<seq<FunctionParameter>>)
    ensures forall i :: 0 <= i < |gs| ==> gs[i] != []
    decreases |ps|
  {
    if ps == [] then []
    else
      assert ps[0] in WithTypeName(ps, ps[0].TypeName);
      [WithTypeName(ps, ps[0].TypeName)] + GroupByTypeName(WithoutTypeName(ps[1..], ps[0].TypeName))
  }

  /** group.FirstOrDefault(p => !p.IsConst), as an option. */
  function FirstNonConst(g: seq<FunctionParameter>): Option<FunctionParameter>
  {
    if g == [] then None
    else if !g[0].IsConst then Some(g[0])
    else FirstNonConst(g[1..])
  }

  /** The element kept for one group: the first non-const parameter, else the first. */
  function Pick(g: seq<FunctionParameter>): FunctionParameter
    requires g != []
  {
    match FirstNonConst(g)
    case Some(p) => p
    case None => g[0]
  }

  /** FunctionParameterExtensions.ReduceToConvertible. */
  function ReduceToConvertible(ps: seq<FunctionParameter>): seq<FunctionParameter>
  {
    var gs := GroupByTypeName(ps);
    seq(|gs|, i requires 0 <= i < |gs| => Pick(gs[i]))
  }

  // ---------------------------------------------------------------------------
  // An index-based reference for what ReduceToConvertible keeps.
  // ---------------------------------------------------------------------------

  /** The position of the first parameter of type name `n`, or -1. */
  function FirstIndex(ps: seq<FunctionParameter>, n: string): (k: int)
    ensures -1 <= k < |ps|
    ensures k >= 0 ==> ps[k].TypeName == n && forall j :: 0 <= j < k ==> ps[j].TypeName != n
    ensures k == -1 ==> forall j :: 0 <= j < |ps| ==> ps[j].TypeName != n
  {
    if ps == [] then -1
    else if ps[0].TypeName == n then 0
    else var k := FirstIndex(ps[1..], n); if k == -1 then -1 else k + 1
  }

  /** The position of the first non-const parameter of type name `n`, or -1. */
  function FirstNonConstIndex(ps: seq<FunctionParameter>, n: string): (k: int)
    ensures -1 <= k < |ps|
    ensures k >= 0 ==> ps[k].TypeName == n && !ps[k].IsConst
    ensures k >= 0 ==> forall j :: 0 <= j < k ==> ps[j].TypeName != n || ps[j].IsConst
    ensures k == -1 ==> forall j :: 0 <= j < |ps| ==> ps[j].TypeName != n || ps[j].IsConst
  {
    if ps == [] then -1
    else if ps[0].TypeName == n && !ps[0].IsConst then 0
    else var k := FirstNonConstIndex(ps[1..], n); if k == -1 then -1 else k + 1
  }

  /** The parameter kept for type name `n`, stated by position in the input. */
  function Chosen(ps: seq<FunctionParameter>, n: string): FunctionParameter
    requires FirstIndex(ps, n) >= 0
  {
    var k := FirstNonConstIndex(ps, n);
    if k >= 0 then ps[k] else ps[FirstIndex(ps, n)]
  }

  /** Picking from the group of `n` yields the first non-const parameter of that type name, else its first parameter. */
  lemma {:induction false} PickFromGroup(ps: seq<FunctionParameter>, n: string)
    requires FirstIndex(ps, n) >= 0
    ensures WithTypeName(ps, n) != []
    ensures Pick(WithTypeName(ps, n)) == Chosen(ps, n)
  {
    if ps[0].TypeName == n {
      var g := WithTypeName(ps, n);
      assert g == [ps[0]] + WithTypeName(ps[1..], n);
      if !ps[0].IsConst {
        assert FirstNonConst(g) == Some(ps[0]);
      } else {
        assert g[1..] == WithTypeName(ps[1..], n);
        NonConstOfGroup(ps[1..], n);
        var k := FirstNonConstIndex(ps[1..], n);
        if k >= 0 {
          assert FirstNonConstIndex(ps, n) == k + 1;
        }
      }
    } else {
      PickFromGroup(ps[1..], n);
      assert WithTypeName(ps, n) == WithTypeName(ps[1..], n);
    }
  }

  /** The first non-const element of a group, stated by position in the input. */
  lemma {:induction false} NonConstOfGroup(ps: seq<FunctionParameter>, n: string)
    ensures FirstNonConst(WithTypeName(ps, n))
      == if FirstNonConstIndex(ps, n) >= 0 then Some(ps[FirstNonConstIndex(ps, n)]) else None
  {
    if ps != [] {
      NonConstOfGroup(ps[1..], n);
      if ps[0].TypeName == n {
        assert WithTypeName(ps, n) == [ps[0]] + WithTypeName(ps[1..], n);
        assert WithTypeName(ps, n)[1..] == WithTypeName(ps[1..], n);
      } else {
        assert WithTypeName(ps, n) == WithTypeName(ps[1..], n);
      }
    }
  }

  /** Dropping the type name `m` keeps every other group as it was. */
  lemma {:induction false} WithoutKeepsOtherGroups(ps: seq<FunctionParameter>, m: string, n: string)
    requires m != n
    ensures WithTypeName(WithoutTypeName(ps, m), n) == WithTypeName(ps, n)
  {
    if ps != [] {
      WithoutKeepsOtherGroups(ps[1..], m, n);
      var d' := WithoutTypeName(ps[1..], m);
      if ps[0].TypeName != m {
        assert WithoutTypeName(ps, m) == [ps[0]] + d';
        assert ([ps[0]] + d')[1..] == d';
      } else {
        assert WithoutTypeName(ps, m) == d';
        assert WithTypeName(ps, n) == WithTypeName(ps[1..], n);
      }
    }
  }

  /** The first occurrence of a name other than `m` survives dropping `m`. */
  lemma {:induction false} WithoutKeepsPresence(ps: seq<FunctionParameter>, m: string, n: string)
    requires n != m
    ensures FirstIndex(WithoutTypeName(ps, m), n) >= 0 <==> FirstIndex(ps, n) >= 0
  {
    if ps != [] {
      WithoutKeepsPresence(ps[1..], m, n);
      var d' := WithoutTypeName(ps[1..], m);
      if ps[0].TypeName != m {
        assert WithoutTypeName(ps, m) == [ps[0]] + d';
        assert ([ps[0]] + d')[1..] == d';
      } else {
        assert WithoutTypeName(ps, m) == d';
      }
    }
  }

  /** Dropping the type name `m` keeps the relative first-occurrence order of the others. */
  lemma {:induction false} WithoutKeepsFirstOrder(ps: seq<FunctionParameter>, m: string, a: string, b: string)
    requires a != m && b != m
    requires FirstIndex(ps, a) >= 0 && FirstIndex(ps, b) >= 0
    ensures FirstIndex(WithoutTypeName(ps, m), a) >= 0 && FirstIndex(WithoutTypeName(ps, m), b) >= 0
    ensures FirstIndex(WithoutTypeName(ps, m), a) < FirstIndex(WithoutTypeName(ps, m), b)
        <==> FirstIndex(ps, a) < FirstIndex(ps, b)
  {
    WithoutKeepsPresence(ps, m, a);
    WithoutKeepsPresence(ps, m, b);
    var d' := WithoutTypeName(ps[1..], m);
    if ps[0].TypeName == m {
      assert WithoutTypeName(ps, m) == d';
      WithoutKeepsFirstOrder(ps[1..], m, a, b);
    } else {
      assert WithoutTypeName(ps, m) == [ps[0]] + d';
      assert ([ps[0]] + d')[1..] == d';
      if ps[0].TypeName != a && ps[0].TypeName != b {
        WithoutKeepsFirstOrder(ps[1..], m, a, b);
      }
    }
  }

  /** Once `m` is dropped, no parameter of that type name is left. */
  lemma WithoutRemovesName(ps: seq<FunctionParameter>, m: string)
    ensures FirstIndex(WithoutTypeName(ps, m), m) == -1
  {
  }

  /** ReduceToConvertible keeps the choice for the first type name, then reduces the rest. */
  lemma ReduceUnfold(ps: seq<FunctionParameter>)
    requires ps != []
    ensures ReduceToConvertible(ps)
      == [Pick(WithTypeName(ps, ps[0].TypeName))] + ReduceToConvertible(WithoutTypeName(ps[1..], ps[0].TypeName))
  {
    var n0 := ps[0].TypeName;
    var r, r' := ReduceToConvertible(ps), ReduceToConvertible(WithoutTypeName(ps[1..], n0));
    ReduceUnfoldAt(ps, 0);
    forall i | 0 <= i < |r| ensures r[i] == ([Pick(WithTypeName(ps, n0))] + r')[i] {
      ReduceUnfoldAt(ps, i);
    }
  }

  /** One position of ReduceUnfold: the groups of `ps` are the group of its first type name, then those of the rest. */
  lemma ReduceUnfoldAt(ps: seq<FunctionParameter>, i: nat)
    requires ps != []
    ensures var rest := WithoutTypeName(ps[1..], ps[0].TypeName);
      var r, r' := ReduceToConvertible(ps), ReduceToConvertible(rest);
      && |r| == 1 + |r'|
      && (i < |r| ==> r[i] == ([Pick(WithTypeName(ps, ps[0].TypeName))] + r')[i])
  {
    var n0 := ps[0].TypeName;
    var rest := WithoutTypeName(ps[1..], n0);
    var gs := GroupByTypeName(ps);
    assert gs == [WithTypeName(ps, n0)] + GroupByTypeName(rest);
    ReduceAt(ps);
    ReduceAt(rest);
    if 0 < i < |gs| {
      assert gs[i] == GroupByTypeName(rest)[i - 1];
    }
  }

  /** ReduceToConvertible picks one parameter from each group, in group order. */
  lemma ReduceAt(ps: seq<FunctionParameter>)
    ensures var r, gs := ReduceToConvertible(ps), GroupByTypeName(ps);
      |r| == |gs| && forall i :: 0 <= i < |r| ==> r[i] == Pick(gs[i])
  {
  }

  /** Every kept parameter is the choice for its type name, which occurs in the input. */
  lemma {:induction false} ReduceKeepsChosen(ps: seq<FunctionParameter>)
    ensures var r := ReduceToConvertible(ps);
      forall i :: 0 <= i < |r| ==> FirstIndex(ps, r[i].TypeName) >= 0 && r[i] == Chosen(ps, r[i].TypeName)
    decreases |ps|
  {
    if ps != [] {
      var n0 := ps[0].TypeName;
      var rest := WithoutTypeName(ps[1..], n0);
      var r, r' := ReduceToConvertible(ps), ReduceToConvertible(rest);
      ReduceUnfold(ps);
      ReduceKeepsChosen(rest);
      PickFromGroup(ps, n0);
      forall i | 0 <= i < |r'|
        ensures FirstIndex(ps, r'[i].TypeName) >= 0 && r'[i] == Chosen(ps, r'[i].TypeName)
      {
        var n := r'[i].TypeName;
        WithoutRemovesName(ps[1..], n0);
        assert n != n0;
        WithoutKeepsPresence(ps[1..], n0, n);
        PickFromGroup(rest, n);
        PickFromGroup(ps, n);
        WithoutKeepsOtherGroups(ps[1..], n0, n);
        assert WithTypeName(ps, n) == WithTypeName(ps[1..], n);
      }
      forall i | 0 <= i < |r|
        ensures FirstIndex(ps, r[i].TypeName) >= 0 && r[i] == Chosen(ps, r[i].TypeName)
      {
        if i > 0 {
          assert r[i] == r'[i - 1];
        }
      }
    }
  }

  /** Every type name of the input is kept. */
  lemma {:induction false} ReduceCoversTypeNames(ps: seq<FunctionParameter>)
    ensures var r := ReduceToConvertible(ps);
      forall k :: 0 <= k < |ps| ==> exists i :: 0 <= i < |r| && r[i].TypeName == ps[k].TypeName
    decreases |ps|
  {
    if ps != [] {
      var n0 := ps[0].TypeName;
      var rest := WithoutTypeName(ps[1..], n0);
      var r, r' := ReduceToConvertible(ps), ReduceToConvertible(rest);
      ReduceUnfold(ps);
      ReduceCoversTypeNames(rest);
      PickFromGroup(ps, n0);
      forall k | 0 <= k < |ps|
        ensures exists i :: 0 <= i < |r| && r[i].TypeName == ps[k].TypeName
      {
        var n := ps[k].TypeName;
        if n == n0 {
          assert r[0].TypeName == n;
        } else {
          assert ps[k] == ps[1..][k - 1];
          WithoutKeepsPresence(ps[1..], n0, n);
          var kk := FirstIndex(rest, n);
          var i :| 0 <= i < |r'| && r'[i].TypeName == rest[kk].TypeName;
          assert r[i + 1] == r'[i];
        }
      }
    }
  }

  /** First occurrences in `ps` of names other than its first, relative to those in the rest with that name dropped. */
  lemma TailFirstIndex(ps: seq<FunctionParameter>, a: string)
    requires ps != []
    requires FirstIndex(WithoutTypeName(ps[1..], ps[0].TypeName), a) >= 0
    ensures FirstIndex(ps[1..], a) >= 0
    ensures FirstIndex(ps, a) == FirstIndex(ps[1..], a) + 1
  {
    WithoutRemovesName(ps[1..], ps[0].TypeName);
    WithoutKeepsPresence(ps[1..], ps[0].TypeName, a);
  }

  /** The type name of a kept parameter occurs in the input. */
  lemma ReduceKeptIsPresent(ps: seq<FunctionParameter>, i: int)
    requires 0 <= i < |ReduceToConvertible(ps)|
    ensures FirstIndex(ps, ReduceToConvertible(ps)[i].TypeName) >= 0
  {
    ReduceKeepsChosen(ps);
  }

  /** Dropping the first type name keeps the first-occurrence order of the others in `ps`. */
  lemma OrderAfterHead(ps: seq<FunctionParameter>, a: string, b: string)
    requires ps != []
    requires FirstIndex(WithoutTypeName(ps[1..], ps[0].TypeName), a) >= 0
    requires FirstIndex(WithoutTypeName(ps[1..], ps[0].TypeName), b) >= 0
    requires FirstIndex(WithoutTypeName(ps[1..], ps[0].TypeName), a)
      < FirstIndex(WithoutTypeName(ps[1..], ps[0].TypeName), b)
    ensures FirstIndex(ps, a) < FirstIndex(ps, b)
  {
    TailFirstIndex(ps, a);
    TailFirstIndex(ps, b);
    WithoutKeepsFirstOrder(ps[1..], ps[0].TypeName, a, b);
  }

  /** The kept parameters follow the order in which their type names first occur. */
  lemma {:induction false} ReduceFollowsFirstOccurrence(ps: seq<FunctionParameter>)
    ensures var r := ReduceToConvertible(ps);
      forall i, j :: 0 <= i < j < |r| ==> FirstIndex(ps, r[i].TypeName) < FirstIndex(ps, r[j].TypeName)
    decreases |ps|
  {
    if ps != [] {
      var n0 := ps[0].TypeName;
      var rest := WithoutTypeName(ps[1..], n0);
      var r, r' := ReduceToConvertible(ps), ReduceToConvertible(rest);
      ReduceFollowsFirstOccurrence(rest);
      forall i, j | 0 <= i < j < |r|
        ensures FirstIndex(ps, r[i].TypeName) < FirstIndex(ps, r[j].TypeName)
      {
        OrderedPair(ps, i, j);
      }
    }
  }

  /** Two kept parameters are in first-occurrence order in `ps` when the kept parameters of the rest are in theirs. */
  lemma OrderedPair(ps: seq<FunctionParameter>, i: int, j: int)
    requires ps != [] && 0 <= i < j < |ReduceToConvertible(ps)|
    requires var rest := WithoutTypeName(ps[1..], ps[0].TypeName);
      var r' := ReduceToConvertible(rest);
      forall i', j' :: 0 <= i' < j' < |r'| ==> FirstIndex(rest, r'[i'].TypeName) < FirstIndex(rest, r'[j'].TypeName)
    ensures var r := ReduceToConvertible(ps);
      FirstIndex(ps, r[i].TypeName) < FirstIndex(ps, r[j].TypeName)
  {
    var rest := WithoutTypeName(ps[1..], ps[0].TypeName);
    var r, r' := ReduceToConvertible(ps), ReduceToConvertible(rest);
    KeptAfterHead(ps, j);
    if i == 0 {
      KeptHead(ps);
      TailFirstIndex(ps, r[j].TypeName);
    } else {
      KeptAfterHead(ps, i);
      assert FirstIndex(rest, r'[i - 1].TypeName) < FirstIndex(rest, r'[j - 1].TypeName);
      OrderAfterHead(ps, r[i].TypeName, r[j].TypeName);
    }
  }

  /** The first kept parameter carries the first type name of the input. */
  lemma KeptHead(ps: seq<FunctionParameter>)
    requires ps != []
    ensures ReduceToConvertible(ps) != []
    ensures ReduceToConvertible(ps)[0].TypeName == ps[0].TypeName
  {
    ReduceUnfold(ps);
    PickFromGroup(ps, ps[0].TypeName);
  }

  /** Every later kept parameter is a kept parameter of the input without its first type name. */
  lemma KeptAfterHead(ps: seq<FunctionParameter>, k: int)
    requires ps != [] && 0 < k < |ReduceToConvertible(ps)|
    ensures var rest := WithoutTypeName(ps[1..], ps[0].TypeName);
      && k - 1 < |ReduceToConvertible(rest)|
      && ReduceToConvertible(ps)[k] == ReduceToConvertible(rest)[k - 1]
      && FirstIndex(rest, ReduceToConvertible(ps)[k].TypeName) >= 0
  {
    ReduceUnfold(ps);
    ReduceKeptIsPresent(WithoutTypeName(ps[1..], ps[0].TypeName), k - 1);
  }

  /**
   * ReduceToConvertible keeps exactly one parameter per distinct type name, in
   * the order in which the type names first occur; for each type name it keeps
   * the first non-const parameter if there is one and the first parameter
   * otherwise; and every kept parameter is one of the input's.
   */
  lemma ReduceToConvertibleSpec(ps: seq<FunctionParameter>)
    ensures var r := ReduceToConvertible(ps);
      && (forall i :: 0 <= i < |r| ==> FirstIndex(ps, r[i].TypeName) >= 0 && r[i] == Chosen(ps, r[i].TypeName))
      && (forall i :: 0 <= i < |r| ==> r[i] in ps)
      && (forall k :: 0 <= k < |ps| ==> exists i :: 0 <= i < |r| && r[i].TypeName == ps[k].TypeName)
      && (forall i, j :: 0 <= i < j < |r| ==> FirstIndex(ps, r[i].TypeName) < FirstIndex(ps, r[j].TypeName))
      && (forall i, j :: 0 <= i < j < |r| ==> r[i].TypeName != r[j].TypeName)
  {
    ReduceKeepsChosen(ps);
    ReduceCoversTypeNames(ps);
    ReduceFollowsFirstOccurrence(ps);
  }
}
