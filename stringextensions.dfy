/**
 * StringExtensions.TrimFullyQualifiedName (common/stringextensions.cs): strips
 * the leading namespaces of a type name, in stack order, stopping at the
 * first namespace the remaining name does not start with.
 */
module StringExtensions {

  /**
   * Whether every strip the loop performs stays in range: Substring(k) needs
   * k <= Length, so a matched namespace must leave at least the two
   * characters of "::" to drop.
   */
  predicate CanTrim(name: string, stack: seq<string>)
  {
    stack == [] || !(stack[0] <= name)
    || (|stack[0]| + 2 <= |name| && CanTrim(name[|stack[0]| + 2..], stack[1..]))
  }

  /** The name the loop leaves once it has consumed the namespaces of `stack`. */
  function TrimmedName(name: string, stack: seq<string>): string
    requires CanTrim(name, stack)
  {
    if stack == [] || !(stack[0] <= name) then name
    else TrimmedName(name[|stack[0]| + 2..], stack[1..])
  }

  /** How many characters the first `k` namespaces account for, separators included. */
  function StripLength(stack: seq<string>, k: nat): nat
    requires k <= |stack|
  {
    if k == 0 then 0 else StripLength(stack, k - 1) + |stack[k - 1]| + 2
  }

  /**
   * A reference statement of the loop: if exactly the first `k` namespaces
   * match, each a prefix of what the previous ones left, and the next one (if
   * any) does not, the result is the name with StripLength(stack, k)
   * characters removed.
   */
  predicate MatchesExactly(name: string, stack: seq<string>, k: nat)
  {
    && k <= |stack|
    && StripLength(stack, k) <= |name|
    && (forall i :: 0 <= i < k ==> MatchesAt(name, stack, i))
    && (k < |stack| ==> !(stack[k] <= name[StripLength(stack, k)..]))
  }

  /** The `i`-th namespace is a prefix of what the ones before it leave, with room for "::". */
  predicate MatchesAt(name: string, stack: seq<string>, i: nat)
    requires i < |stack|
  {
    StripLength(stack, i + 1) <= |name| && StripLength(stack, i) <= |name|
    && stack[i] <= name[StripLength(stack, i)..]
  }

  /** StripLength over a stack with its first namespace removed. */
  lemma {:induction false} StripLengthTail(stack: seq<string>, k: nat)
    requires 0 < k <= |stack|
    ensures StripLength(stack, k) == |stack[0]| + 2 + StripLength(stack[1..], k - 1)
  {
    if k > 1 {
      StripLengthTail(stack, k - 1);
    }
  }

  /** The trimmed name is always a suffix of the input. */
  lemma {:induction false} TrimmedNameIsSuffix(name: string, stack: seq<string>)
    requires CanTrim(name, stack)
    ensures |TrimmedName(name, stack)| <= |name|
    ensures TrimmedName(name, stack) == name[|name| - |TrimmedName(name, stack)|..]
  {
    if stack != [] && stack[0] <= name {
      var rest := name[|stack[0]| + 2..];
      TrimmedNameIsSuffix(rest, stack[1..]);
    }
  }

  /** MatchesAt past a matched first namespace, in terms of what that namespace leaves. */
  lemma MatchesAtShift(name: string, stack: seq<string>, i: nat)
    requires 0 < i < |stack| && stack[0] <= name && |stack[0]| + 2 <= |name|
    ensures MatchesAt(name, stack, i) <==> MatchesAt(name[|stack[0]| + 2..], stack[1..], i - 1)
  {
    var rest := name[|stack[0]| + 2..];
    StripLengthTail(stack, i);
    StripLengthTail(stack, i + 1);
    if StripLength(stack, i) <= |name| {
      assert name[StripLength(stack, i)..] == rest[StripLength(stack[1..], i - 1)..];
    }
  }

  /** MatchesExactly past a matched first namespace, in terms of what that namespace leaves. */
  lemma MatchesExactlyShift(name: string, stack: seq<string>, k: nat)
    requires stack != [] && stack[0] <= name && |stack[0]| + 2 <= |name|
    ensures MatchesExactly(name, stack, k + 1) <==> MatchesExactly(name[|stack[0]| + 2..], stack[1..], k)
  {
    var rest := name[|stack[0]| + 2..];
    if k + 1 <= |stack| {
      StripLengthTail(stack, k + 1);
      assert MatchesAt(name, stack, 0) by {
        StripLengthTail(stack, 1);
      }
      forall i | 0 < i < k + 1 ensures MatchesAt(name, stack, i) <==> MatchesAt(rest, stack[1..], i - 1) {
        MatchesAtShift(name, stack, i);
      }
      if (forall i :: 0 <= i < k ==> MatchesAt(rest, stack[1..], i)) {
        forall i | 0 <= i < k + 1 ensures MatchesAt(name, stack, i) {
          if i > 0 {
            assert MatchesAt(rest, stack[1..], i - 1);
          }
        }
      }
      if (forall i :: 0 <= i < k + 1 ==> MatchesAt(name, stack, i)) {
        forall i | 0 <= i < k ensures MatchesAt(rest, stack[1..], i) {
          assert MatchesAt(name, stack, i + 1);
        }
      }
      if k + 1 < |stack| && StripLength(stack, k + 1) <= |name| {
        assert name[StripLength(stack, k + 1)..] == rest[StripLength(stack[1..], k)..];
      }
    }
  }

  /** When at least one namespace matches, the first one is a prefix of the name. */
  lemma FirstNamespaceMatches(name: string, stack: seq<string>, k: nat)
    requires 0 < k && MatchesExactly(name, stack, k)
    ensures stack[0] <= name
  {
    assert MatchesAt(name, stack, 0);
    assert name[StripLength(stack, 0)..] == name;
  }

  /**
   * The loop strips exactly the namespaces that match in a row from the start
   * of the stack, and stops at the first one that does not: for the unique `k`
   * with MatchesExactly, the result drops StripLength(stack, k) characters.
   */
  lemma {:induction false} TrimmedNameStripsMatchedPrefix(name: string, stack: seq<string>)
    requires CanTrim(name, stack)
    ensures exists k: nat :: MatchesExactly(name, stack, k)
    ensures forall k: nat :: MatchesExactly(name, stack, k) ==>
      TrimmedName(name, stack) == name[StripLength(stack, k)..]
  {
    if stack == [] {
      assert MatchesExactly(name, stack, 0);
    } else if !(stack[0] <= name) {
      assert MatchesExactly(name, stack, 0);
      forall k: nat | MatchesExactly(name, stack, k) ensures TrimmedName(name, stack) == name[StripLength(stack, k)..] {
        if k > 0 {
          FirstNamespaceMatches(name, stack, k);
          assert false;
        }
      }
    } else {
      var rest := name[|stack[0]| + 2..];
      TrimmedNameStripsMatchedPrefix(rest, stack[1..]);
      var k': nat :| MatchesExactly(rest, stack[1..], k');
      MatchesExactlyShift(name, stack, k');
      forall k: nat | MatchesExactly(name, stack, k) ensures TrimmedName(name, stack) == name[StripLength(stack, k)..] {
        MatchedStepDrops(name, stack, k);
      }
    }
  }

  /** One matched step: dropping the first namespace leaves the same suffix of the name. */
  lemma MatchedStepDrops(name: string, stack: seq<string>, k: nat)
    requires CanTrim(name, stack) && stack != [] && stack[0] <= name
    requires MatchesExactly(name, stack, k)
    requires forall k: nat :: MatchesExactly(name[|stack[0]| + 2..], stack[1..], k) ==>
      TrimmedName(name[|stack[0]| + 2..], stack[1..]) == name[|stack[0]| + 2..][StripLength(stack[1..], k)..]
    ensures TrimmedName(name, stack) == name[StripLength(stack, k)..]
  {
    var rest := name[|stack[0]| + 2..];
    NoMatchAtZero(name, stack);
    MatchesExactlyShift(name, stack, k - 1);
    StripLengthTail(stack, k);
    assert name[StripLength(stack, k)..] == rest[StripLength(stack[1..], k - 1)..];
  }

  /** Matching no namespace at all means the first one is not a prefix of the name. */
  lemma NoMatchAtZero(name: string, stack: seq<string>)
    requires stack != []
    ensures MatchesExactly(name, stack, 0) ==> !(stack[0] <= name)
  {
    assert name[StripLength(stack, 0)..] == name;
  }

  /** Leaves the name alone when the stack is empty or its first namespace is not a prefix. */
  lemma TrimmedNameUnchangedOnFirstMiss(name: string, stack: seq<string>)
    requires stack == [] || !(stack[0] <= name)
    ensures CanTrim(name, stack) && TrimmedName(name, stack) == name
  {
  }

  /** StringExtensions.TrimFullyQualifiedName in the common project. */
  method TrimFullyQualifiedName(typeName: string, namespaceStack: seq<string>) returns (r: string)
    requires CanTrim(typeName, namespaceStack)
    ensures r == TrimmedName(typeName, namespaceStack)
  {
    r := typeName;
    var i := 0;
    while i < |namespaceStack|
      invariant 0 <= i <= |namespaceStack|
      invariant CanTrim(r, namespaceStack[i..])
      invariant TrimmedName(r, namespaceStack[i..]) == TrimmedName(typeName, namespaceStack)
    {
      var namespaceIdentifier := namespaceStack[i];
      if namespaceIdentifier <= r {
        r := r[|namespaceIdentifier| + 2..];
      } else {
        break;
      }
      i := i + 1;
    }
  }
}

/** The identical copy of TrimFullyQualifiedName in Onyx.CodeGen.Core/stringextensions.cs. */
module CoreStringExtensions {
  import opened StringExtensions

  /** StringExtensions.TrimFullyQualifiedName in the Onyx.CodeGen.Core project. */
  method TrimFullyQualifiedName(typeName: string, namespaceStack: seq<string>) returns (r: string)
    requires CanTrim(typeName, namespaceStack)
    ensures r == TrimmedName(typeName, namespaceStack)
  {
    r := typeName;
    for i := 0 to |namespaceStack|
      invariant CanTrim(r, namespaceStack[i..])
      invariant TrimmedName(r, namespaceStack[i..]) == TrimmedName(typeName, namespaceStack)
    {
      if namespaceStack[i] <= r {
        r := r[|namespaceStack[i]| + 2..];
      } else {
        break;
      }
    }
  }
}
