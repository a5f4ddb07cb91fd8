/**
 * The include pipelines of ComponentGenerator: the header includes of one
 * component (its fields' types that live outside the core module) and the
 * includes of the single generated source file (the component and editor
 * includes together). Both deduplicate, order by folder depth, then by the
 * text, and format each path as an `#include` line.
 */
module Includes {
  import opened Wrappers
  import opened Strings
  import opened Types
  import opened Fields

  /** No element occurs twice. */
  predicate NoDuplicates(xs: seq<string>)
  {
    forall i, j :: 0 <= i < j < |xs| ==> xs[i] != xs[j]
  }

  /** Enumerable.Distinct: every element once, at its first occurrence. */
  function Distinct(xs: seq<string>): (r: seq<string>)
    ensures NoDuplicates(r)
    ensures forall x :: x in r <==> x in xs
  {
    if xs == [] then []
    else
      var init := Distinct(xs[..|xs| - 1]);
      var x := xs[|xs| - 1];
      assert xs == xs[..|xs| - 1] + [x];
      if x in init then init else init + [x]
  }

  /** The sort key: fewer folders first, then ordinal order of the text. */
  predicate IncludeLess(a: string, b: string)
  {
    FolderDepth(a) < FolderDepth(b) || (FolderDepth(a) == FolderDepth(b) && OrdinalLess(a, b))
  }

  lemma IncludeLessIrreflexive(a: string)
    ensures !IncludeLess(a, a)
  {
    OrdinalLessIrreflexive(a);
  }

  lemma IncludeLessTransitive(a: string, b: string, c: string)
    requires IncludeLess(a, b) && IncludeLess(b, c)
    ensures IncludeLess(a, c)
  {
    if FolderDepth(a) == FolderDepth(b) == FolderDepth(c) {
      OrdinalLessTransitive(a, b, c);
    }
  }

  lemma IncludeLessTotal(a: string, b: string)
    requires a != b
    ensures IncludeLess(a, b) || IncludeLess(b, a)
  {
    OrdinalLessTotal(a, b);
  }

  /** In key order: no element is followed by one that sorts before it. */
  predicate SortedIncludes(xs: seq<string>)
  {
    forall i, j :: 0 <= i < j < |xs| ==> !IncludeLess(xs[j], xs[i])
  }

  /** Inserts `x` before the first element that does not sort before it. */
  function Insert(x: string, xs: seq<string>): (r: seq<string>)
    ensures multiset(r) == multiset(xs) + multiset{x}
  {
    if xs == [] || !IncludeLess(xs[0], x) then [x] + xs
    else
      assert xs == [xs[0]] + xs[1..];
      [xs[0]] + Insert(x, xs[1..])
  }

  /** OrderBy(depth).ThenBy(text): equal keys are equal strings, so any stable sort gives this result. */
  function SortIncludes(xs: seq<string>): (r: seq<string>)
    ensures multiset(r) == multiset(xs)
  {
    if xs == [] then []
    else
      assert xs == [xs[0]] + xs[1..];
      Insert(xs[0], SortIncludes(xs[1..]))
  }

  /** A sequence with a head is sorted when its tail is and nothing in the tail sorts before the head. */
  lemma SortedCons(h: string, t: seq<string>)
    ensures SortedIncludes([h] + t) <==> SortedIncludes(t) && forall k :: 0 <= k < |t| ==> !IncludeLess(t[k], h)
  {
    var r := [h] + t;
    assert forall k :: 0 <= k < |t| ==> r[k + 1] == t[k];
    if SortedIncludes(t) && forall k :: 0 <= k < |t| ==> !IncludeLess(t[k], h) {
      forall i, j | 0 <= i < j < |r| ensures !IncludeLess(r[j], r[i]) {
        if i > 0 {
          assert r[i] == t[i - 1] && r[j] == t[j - 1];
        }
      }
    }
    if SortedIncludes(r) {
      forall i, j | 0 <= i < j < |t| ensures !IncludeLess(t[j], t[i]) {
        assert r[i + 1] == t[i] && r[j + 1] == t[j];
      }
      forall k | 0 <= k < |t| ensures !IncludeLess(t[k], h) {
        assert r[0] == h && r[k + 1] == t[k];
      }
    }
  }

  /** Not sorting before is transitive: the key order is total. */
  lemma NotBelow(y: string, h: string, x: string)
    requires !IncludeLess(y, h) && !IncludeLess(h, x)
    ensures !IncludeLess(y, x)
  {
    if IncludeLess(y, x) && y != h {
      IncludeLessTotal(y, h);
      IncludeLessTransitive(h, y, x);
    }
  }

  /** Every element of an insertion is the inserted one or was there before. */
  lemma InsertElements(x: string, xs: seq<string>, y: string)
    requires y in Insert(x, xs)
    ensures y == x || y in xs
  {
    assert y in multiset(Insert(x, xs));
  }

  /** Inserting into a sorted sequence keeps it sorted. */
  lemma {:induction false} InsertSorted(x: string, xs: seq<string>)
    requires SortedIncludes(xs)
    ensures SortedIncludes(Insert(x, xs))
  {
    if xs == [] {
    } else if !IncludeLess(xs[0], x) {
      SortedCons(xs[0], xs[1..]);
      assert xs == [xs[0]] + xs[1..];
      forall k | 0 <= k < |xs| ensures !IncludeLess(xs[k], x) {
        if k > 0 {
          assert xs[k] == xs[1..][k - 1];
          NotBelow(xs[k], xs[0], x);
        }
      }
      SortedCons(x, xs);
    } else {
      assert xs == [xs[0]] + xs[1..];
      SortedCons(xs[0], xs[1..]);
      var rest := Insert(x, xs[1..]);
      InsertSorted(x, xs[1..]);
      forall k | 0 <= k < |rest| ensures !IncludeLess(rest[k], xs[0]) {
        InsertElements(x, xs[1..], rest[k]);
        if rest[k] == x {
          if IncludeLess(x, xs[0]) {
            IncludeLessTransitive(x, xs[0], x);
            IncludeLessIrreflexive(x);
          }
        }
      }
      SortedCons(xs[0], rest);
    }
  }

  /** The sort orders its result by the key and keeps every element with its multiplicity. */
  lemma {:induction false} SortIncludesSorted(xs: seq<string>)
    ensures SortedIncludes(SortIncludes(xs))
  {
    if xs != [] {
      SortIncludesSorted(xs[1..]);
      InsertSorted(xs[0], SortIncludes(xs[1..]));
    }
  }

  /**
   * Deduplicating and then sorting gives each path of the input exactly once,
   * every one strictly before those that sort after it by depth and text.
   */
  lemma SortedDistinct(xs: seq<string>)
    ensures var r := SortIncludes(Distinct(xs));
      && (forall x :: x in r <==> x in xs)
      && (forall i, j :: 0 <= i < j < |r| ==> IncludeLess(r[i], r[j]))
      && NoDuplicates(r)
  {
    var d := Distinct(xs);
    var r := SortIncludes(d);
    SortIncludesSorted(d);
    forall x ensures x in r <==> x in d {
      assert x in r <==> x in multiset(r);
      assert x in d <==> x in multiset(d);
    }
    PermutationKeepsNoDuplicates(d, r);
    forall i, j | 0 <= i < j < |r| ensures IncludeLess(r[i], r[j]) {
      IncludeLessTotal(r[i], r[j]);
    }
  }

  /** A permutation of a sequence without duplicates has none either. */
  lemma PermutationKeepsNoDuplicates(d: seq<string>, r: seq<string>)
    requires NoDuplicates(d) && multiset(r) == multiset(d)
    ensures NoDuplicates(r)
  {
    forall i, j | 0 <= i < j < |r| ensures r[i] != r[j] {
      if r[i] == r[j] {
        TwiceCounted(r, i, j);
        MultiplicityInDistinct(d, r[i]);
      }
    }
  }

  /** An element at two positions occurs at least twice. */
  lemma TwiceCounted(r: seq<string>, i: nat, j: nat)
    requires i < j < |r| && r[i] == r[j]
    ensures multiset(r)[r[i]] >= 2
  {
    assert r == r[..i] + [r[i]] + r[i + 1..j] + [r[j]] + r[j + 1..];
    assert multiset(r) == multiset(r[..i]) + multiset{r[i]} + multiset(r[i + 1..j]) + multiset{r[j]} + multiset(r[j + 1..]);
  }

  /** In a sequence without duplicates every element occurs once. */
  lemma {:induction false} MultiplicityInDistinct(d: seq<string>, x: string)
    requires NoDuplicates(d)
    ensures multiset(d)[x] <= 1
  {
    if d != [] {
      assert d == [d[0]] + d[1..];
      MultiplicityInDistinct(d[1..], x);
      if d[0] == x {
        assert x !in d[1..];
      }
    }
  }

  /** `#include <path>`. */
  function IncludeLine(path: string): string
  {
    "#include <" + path + ">"
  }

  /** Select(s => $"#include <{s}>"). */
  function IncludeLines(paths: seq<string>): (r: seq<string>)
    ensures |r| == |paths|
    ensures forall i :: 0 <= i < |paths| ==> r[i] == IncludeLine(paths[i])
  {
    if paths == [] then [] else [IncludeLine(paths[0])] + IncludeLines(paths[1..])
  }

  /** The include line names its path: the formatting loses nothing. */
  lemma IncludeLineInjective(a: string, b: string)
    requires IncludeLine(a) == IncludeLine(b)
    ensures a == b
  {
    assert a == IncludeLine(a)[10..|IncludeLine(a)| - 1];
  }

  /** A field the header includes for: its type is resolved and lies outside onyx/modules/core. */
  predicate ExternalField(f: Field)
  {
    f.Type.Some? && !Contains(f.Type.value.AbsolutePath, "onyx/modules/core")
  }

  /** The include paths of the external fields, in field order. */
  function ExternalIncludePaths(fields: seq<Field>): seq<string>
  {
    if fields == [] then []
    else (if ExternalField(fields[0]) then [fields[0].Type.value.IncludePath] else [])
         + ExternalIncludePaths(fields[1..])
  }

  /** The header includes of one component declaration. */
  function HeaderIncludePaths(fields: seq<Field>): seq<string>
  {
    SortIncludes(Distinct(ExternalIncludePaths(fields)))
  }

  /** The includes of the combined source file: componentIncludes.Union(editorIncludes), deduplicated and sorted. */
  function SourceIncludePaths(componentIncludes: seq<string>, editorIncludes: seq<string>): seq<string>
  {
    SortIncludes(Distinct(Distinct(componentIncludes + editorIncludes)))
  }

  /** A path is collected exactly when some external field's type has it as include path. */
  lemma {:induction false} ExternalIncludePathsSpec(fields: seq<Field>, path: string)
    ensures path in ExternalIncludePaths(fields) <==>
      exists i :: 0 <= i < |fields| && ExternalField(fields[i]) && fields[i].Type.value.IncludePath == path
  {
    if fields != [] {
      ExternalIncludePathsSpec(fields[1..], path);
      assert forall i :: 1 <= i < |fields| ==> fields[i] == fields[1..][i - 1];
      if exists i :: 0 <= i < |fields| && ExternalField(fields[i]) && fields[i].Type.value.IncludePath == path {
        var i :| 0 <= i < |fields| && ExternalField(fields[i]) && fields[i].Type.value.IncludePath == path;
        if i > 0 {
          assert fields[1..][i - 1] == fields[i];
        }
      }
    }
  }

  /**
   * The header includes name each include path of an external field's type
   * exactly once, and no other path: a field whose type is unresolved or in
   * the core module contributes nothing. They are in strict depth-then-text
   * order.
   */
  lemma HeaderIncludesSpec(fields: seq<Field>)
    ensures var r := HeaderIncludePaths(fields);
      && (forall path :: path in r <==>
            exists i :: 0 <= i < |fields| && ExternalField(fields[i]) && fields[i].Type.value.IncludePath == path)
      && (forall i, j :: 0 <= i < j < |r| ==> IncludeLess(r[i], r[j]))
      && NoDuplicates(r)
  {
    SortedDistinct(ExternalIncludePaths(fields));
    forall path ensures path in ExternalIncludePaths(fields) <==>
        exists i :: 0 <= i < |fields| && ExternalField(fields[i]) && fields[i].Type.value.IncludePath == path {
      ExternalIncludePathsSpec(fields, path);
    }
  }

  /**
   * The source file's includes are the component and editor includes
   * together, each once, in strict depth-then-text order; the second
   * deduplication after Union changes nothing.
   */
  lemma SourceIncludesSpec(componentIncludes: seq<string>, editorIncludes: seq<string>)
    ensures var r := SourceIncludePaths(componentIncludes, editorIncludes);
      && (forall path :: path in r <==> path in componentIncludes || path in editorIncludes)
      && (forall i, j :: 0 <= i < j < |r| ==> IncludeLess(r[i], r[j]))
      && NoDuplicates(r)
    ensures Distinct(Distinct(componentIncludes + editorIncludes)) == Distinct(componentIncludes + editorIncludes)
  {
    var u := Distinct(componentIncludes + editorIncludes);
    DistinctIdempotent(u);
    SortedDistinct(u);
  }

  /** Distinct leaves a sequence without duplicates unchanged. */
  lemma {:induction false} DistinctIdempotent(xs: seq<string>)
    requires NoDuplicates(xs)
    ensures Distinct(xs) == xs
  {
    if xs != [] {
      var init := xs[..|xs| - 1];
      DistinctIdempotent(init);
      assert xs[|xs| - 1] !in init;
      assert xs == init + [xs[|xs| - 1]];
    }
  }
}
