/**
 * PathExtension.GetShortestRelativePath (Onyx.CodeGen.Core/pathextension.cs):
 * the shortest path of a header relative to one of the include directories
 * that contain it, with forward slashes.
 *
 * Path.GetRelativePath is a library call whose behaviour is not part of this
 * model: it is a parameter `relative`, where `relative(dir, target) == None`
 * stands for a call that throws.
 */
module PathExtension {
  import opened Wrappers
  import opened Strings

  /** Path.GetRelativePath(dir, target), or None where it throws. */
  type RelativePath = (string, string) -> Option<string>

  /** An include directory the loop accepts: not blank, GetRelativePath succeeds and does not climb out with "..". */
  predicate IsCandidate(dir: string, target: string, relative: RelativePath)
  {
    !IsBlank(dir) && relative(dir, target).Some? && !(".." <= relative(dir, target).value)
  }

  /** One iteration: a candidate replaces `shortest` when none (or an empty one) is held, or when it is strictly shorter. */
  function Consider(shortest: Option<string>, dir: string, target: string, relative: RelativePath): Option<string>
  {
    if !IsCandidate(dir, target, relative) then shortest
    else
      var p := relative(dir, target).value;
      if shortest.None? || shortest.value == "" || |p| < |shortest.value| then Some(p) else shortest
  }

  /** The value of `shortest` after the loop has visited `dirs` in order. */
  function ShortestCandidate(dirs: seq<string>, target: string, relative: RelativePath): Option<string>
  {
    if dirs == [] then None
    else Consider(ShortestCandidate(dirs[..|dirs| - 1], target, relative), dirs[|dirs| - 1], target, relative)
  }

  /** What GetShortestRelativePath returns; a null target is `None`. */
  function ShortestRelativePath(includeDirs: seq<string>, target: Option<string>, relative: RelativePath): string
  {
    if target.None? then ""
    else if includeDirs == [] then target.value
    else
      var chosen := match ShortestCandidate(includeDirs, target.value, relative)
        case Some(p) => p
        case None => target.value;
      ReplaceChar(chosen, '\\', '/')
  }

  /** PathExtension.GetShortestRelativePath. */
  method GetShortestRelativePath(includeDirs: seq<string>, target: Option<string>, relative: RelativePath)
    returns (r: string)
    ensures r == ShortestRelativePath(includeDirs, target, relative)
  {
    if target.None? {
      return "";
    }
    if includeDirs == [] {
      return target.value;
    }
    var shortest: Option<string> := None;
    for i := 0 to |includeDirs|
      invariant shortest == ShortestCandidate(includeDirs[..i], target.value, relative)
    {
      assert includeDirs[..i + 1][..i] == includeDirs[..i];
      var dir := includeDirs[i];
      if IsBlank(dir) {
        continue;
      }
      var rel := relative(dir, target.value);
      if rel.None? {
        continue;
      }
      if ".." <= rel.value {
        continue;
      }
      if shortest.None? || shortest.value == "" || |rel.value| < |shortest.value| {
        shortest := Some(rel.value);
      }
    }
    assert includeDirs[..|includeDirs|] == includeDirs;
    var result := if shortest.Some? then shortest.value else target.value;
    r := ReplaceChar(result, '\\', '/');
  }

  /**
   * The loop keeps a candidate exactly when there is one, and what it keeps is
   * the relative path of some accepted directory: never a blank directory's,
   * never one that failed, never one starting with "..".
   */
  lemma {:induction false} ShortestIsACandidate(dirs: seq<string>, target: string, relative: RelativePath)
    ensures var s := ShortestCandidate(dirs, target, relative);
      && (s.None? <==> forall i :: 0 <= i < |dirs| ==> !IsCandidate(dirs[i], target, relative))
      && (s.Some? ==> exists i :: 0 <= i < |dirs| && IsCandidate(dirs[i], target, relative)
                                && relative(dirs[i], target).value == s.value)
  {
    if dirs != [] {
      var init := dirs[..|dirs| - 1];
      ShortestIsACandidate(init, target, relative);
      assert forall i :: 0 <= i < |init| ==> init[i] == dirs[i];
    }
  }

  /**
   * When no accepted directory yields an empty path, the kept path is the
   * shortest one, and among the shortest the one from the earliest directory:
   * a later path replaces it only when strictly shorter.
   */
  lemma {:induction false} ShortestIsShortestEarliest(dirs: seq<string>, target: string, relative: RelativePath)
    requires forall i :: 0 <= i < |dirs| && IsCandidate(dirs[i], target, relative) ==> relative(dirs[i], target).value != ""
    requires ShortestCandidate(dirs, target, relative).Some?
    ensures var s := ShortestCandidate(dirs, target, relative).value;
      exists i :: 0 <= i < |dirs| && IsCandidate(dirs[i], target, relative) && relative(dirs[i], target).value == s
        && (forall j :: 0 <= j < |dirs| && IsCandidate(dirs[j], target, relative) ==> |s| <= |relative(dirs[j], target).value|)
        && (forall j :: 0 <= j < i && IsCandidate(dirs[j], target, relative) ==> |s| < |relative(dirs[j], target).value|)
  {
    var n := |dirs|;
    var init := dirs[..n - 1];
    var d := dirs[n - 1];
    var s := ShortestCandidate(dirs, target, relative).value;
    assert forall i :: 0 <= i < |init| ==> init[i] == dirs[i];
    var prev := ShortestCandidate(init, target, relative);
    if prev.None? {
      ShortestIsACandidate(init, target, relative);
      assert IsCandidate(d, target, relative) && relative(d, target).value == s;
      var i := n - 1;
      assert IsCandidate(dirs[i], target, relative) && relative(dirs[i], target).value == s;
    } else {
      ShortestIsShortestEarliest(init, target, relative);
      var i :| 0 <= i < |init| && IsCandidate(init[i], target, relative) && relative(init[i], target).value == prev.value
        && (forall j :: 0 <= j < |init| && IsCandidate(init[j], target, relative) ==> |prev.value| <= |relative(init[j], target).value|)
        && (forall j :: 0 <= j < i && IsCandidate(init[j], target, relative) ==> |prev.value| < |relative(init[j], target).value|);
      if s == prev.value {
        assert IsCandidate(dirs[i], target, relative) && relative(dirs[i], target).value == s;
      } else {
        var k := n - 1;
        assert IsCandidate(dirs[k], target, relative) && relative(dirs[k], target).value == s;
        assert |s| < |prev.value|;
      }
    }
  }

  /** A null target gives the empty string, and no include directory gives the target untouched. */
  lemma ShortestRelativePathEdges(includeDirs: seq<string>, target: Option<string>, relative: RelativePath)
    ensures target.None? ==> ShortestRelativePath(includeDirs, target, relative) == ""
    ensures target.Some? && includeDirs == [] ==> ShortestRelativePath(includeDirs, target, relative) == target.value
  {
  }

  /**
   * With include directories, the result is the kept relative path, or the
   * target when no directory was accepted, with every backslash turned into a
   * slash and every other character kept.
   */
  lemma ShortestRelativePathResult(includeDirs: seq<string>, target: string, relative: RelativePath)
    requires includeDirs != []
    ensures var r := ShortestRelativePath(includeDirs, Some(target), relative);
      var s := ShortestCandidate(includeDirs, target, relative);
      var chosen := if s.Some? then s.value else target;
      && |r| == |chosen|
      && (forall i :: 0 <= i < |r| ==> r[i] != '\\')
      && (forall i :: 0 <= i < |r| ==> r[i] == if chosen[i] == '\\' then '/' else chosen[i])
      && (s.None? <==> forall i :: 0 <= i < |includeDirs| ==> !IsCandidate(includeDirs[i], target, relative))
  {
    ShortestIsACandidate(includeDirs, target, relative);
  }
}
