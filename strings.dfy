/**
 * The handful of .NET string operations the generator relies on, stated over
 * `seq<char>`: IndexOf, LastIndexOf("::"), Trim, Split, String.Join,
 * Replace(char, char), Contains, OrdinalIgnoreCase equality and ordinal order.
 */
module Strings {

  /** The characters Char.IsWhiteSpace accepts: the Unicode space separators and the white-space controls. */
  const WhiteSpace: set<char> := {
    ' ', '\t', '\n', '\r', '\U{B}', '\U{C}', '\U{85}', '\U{A0}', '\U{1680}',
    '\U{2000}', '\U{2001}', '\U{2002}', '\U{2003}', '\U{2004}', '\U{2005}',
    '\U{2006}', '\U{2007}', '\U{2008}', '\U{2009}', '\U{200A}',
    '\U{2028}', '\U{2029}', '\U{202F}', '\U{205F}', '\U{3000}'
  }

  /** Char.IsWhiteSpace. */
  predicate IsWhiteSpace(c: char)
  {
    c in WhiteSpace
  }

  /** String.IsNullOrWhiteSpace on a non-null string. */
  predicate IsBlank(s: string)
  {
    forall i :: 0 <= i < |s| ==> IsWhiteSpace(s[i])
  }

  /** String.IndexOf(char): the first position of `c`, or -1. */
  function IndexOf(s: string, c: char): (r: int)
    ensures -1 <= r < |s|
    ensures r == -1 <==> c !in s
    ensures r >= 0 ==> s[r] == c && c !in s[..r]
  {
    if |s| == 0 then -1
    else if s[0] == c then 0
    else
      var k := IndexOf(s[1..], c);
      if k == -1 then -1
      else
        assert s[..k + 1] == [s[0]] + s[1..][..k];
        k + 1
  }

  /** Whether the two characters at `i` are the namespace separator "::". */
  predicate SeparatorAt(s: string, i: int)
  {
    0 <= i && i + 1 < |s| && s[i] == ':' && s[i + 1] == ':'
  }

  /** String.LastIndexOf("::"): the start of the last separator, or -1. */
  function LastIndexOfSeparator(s: string): (r: int)
    ensures r == -1 || SeparatorAt(s, r)
    ensures forall j :: r < j ==> !SeparatorAt(s, j)
  {
    if |s| < 2 then -1
    else if s[|s| - 2] == ':' && s[|s| - 1] == ':' then |s| - 2
    else
      var r := LastIndexOfSeparator(s[..|s| - 1]);
      assert forall j :: SeparatorAt(s, j) && j + 2 < |s| ==> SeparatorAt(s[..|s| - 1], j);
      r
  }

  /** How many white-space characters the string starts with. */
  function LeadingSpace(s: string): (k: nat)
    ensures k <= |s|
    ensures forall i :: 0 <= i < k ==> IsWhiteSpace(s[i])
    ensures k < |s| ==> !IsWhiteSpace(s[k])
  {
    if s != [] && IsWhiteSpace(s[0]) then 1 + LeadingSpace(s[1..]) else 0
  }

  /** How many white-space characters the string ends with. */
  function TrailingSpace(s: string): (k: nat)
    ensures k <= |s|
    ensures forall i :: |s| - k <= i < |s| ==> IsWhiteSpace(s[i])
    ensures k < |s| ==> !IsWhiteSpace(s[|s| - 1 - k])
  {
    if s != [] && IsWhiteSpace(s[|s| - 1]) then 1 + TrailingSpace(s[..|s| - 1]) else 0
  }

  /** String.TrimStart(): drops the leading white space. */
  function TrimStart(s: string): string
  {
    s[LeadingSpace(s)..]
  }

  /** String.TrimEnd(): drops the trailing white space. */
  function TrimEnd(s: string): string
  {
    s[..|s| - TrailingSpace(s)]
  }

  /**
   * String.Trim(): the input without its leading and trailing white space; it
   * is empty exactly on a blank input, and otherwise starts and ends with a
   * character that is not white space.
   */
  function Trim(s: string): (r: string)
    ensures |r| <= |s|
    ensures r == [] <==> IsBlank(s)
    ensures r != [] ==> Trimmed(r)
  {
    var t := TrimStart(s);
    assert LeadingSpace(s) == |s| ==> IsBlank(s);
    assert LeadingSpace(s) < |s| ==> t[0] == s[LeadingSpace(s)];
    TrimEnd(t)
  }

  /** The first position of any character of `seps`, or -1 (String.IndexOfAny). */
  function IndexOfAny(s: string, seps: set<char>): (r: int)
    ensures -1 <= r < |s|
    ensures r == -1 <==> forall i :: 0 <= i < |s| ==> s[i] !in seps
    ensures r >= 0 ==> s[r] in seps && forall i :: 0 <= i < r ==> s[i] !in seps
  {
    if |s| == 0 then -1
    else if s[0] in seps then 0
    else
      var k := IndexOfAny(s[1..], seps);
      if k == -1 then -1 else k + 1
  }

  /** String.Split(separators) with no options: the pieces between separators, empty ones kept. */
  function Split(s: string, seps: set<char>): (r: seq<string>)
    ensures |r| >= 1
    ensures forall i, j :: 0 <= i < |r| && 0 <= j < |r[i]| ==> r[i][j] !in seps
    decreases |s|
  {
    var k := IndexOfAny(s, seps);
    if k == -1 then [s] else [s[..k]] + Split(s[k + 1..], seps)
  }

  /** String.Join(separator, pieces). */
  function Join(xs: seq<string>, sep: string): string
  {
    if |xs| == 0 then ""
    else if |xs| == 1 then xs[0]
    else xs[0] + sep + Join(xs[1..], sep)
  }

  /** Splitting on one character and joining with it gives the input back. */
  lemma {:induction false} JoinSplit(s: string, c: char)
    ensures Join(Split(s, {c}), [c]) == s
    decreases |s|
  {
    var k := IndexOfAny(s, {c});
    if k != -1 {
      var rest := Split(s[k + 1..], {c});
      JoinSplit(s[k + 1..], c);
      assert Split(s, {c}) == [s[..k]] + rest;
      assert ([s[..k]] + rest)[1..] == rest;
      assert s == s[..k] + [c] + s[k + 1..];
    }
  }

  /** The options RemoveEmptyEntries | TrimEntries applied to the pieces of a split. */
  function TrimAndDropEmpty(xs: seq<string>): (r: seq<string>)
    ensures |r| <= |xs|
  {
    if xs == [] then []
    else
      var t := Trim(xs[0]);
      if t == [] then TrimAndDropEmpty(xs[1..]) else [t] + TrimAndDropEmpty(xs[1..])
  }

  /** Every piece kept is non-empty and trimmed. */
  lemma {:induction false} TrimAndDropEmptyTrimmed(xs: seq<string>)
    ensures forall i :: 0 <= i < |TrimAndDropEmpty(xs)| ==> Trimmed(TrimAndDropEmpty(xs)[i])
  {
    if xs != [] {
      TrimAndDropEmptyTrimmed(xs[1..]);
      var t := Trim(xs[0]);
      var rest := TrimAndDropEmpty(xs[1..]);
      if t != [] {
        assert Trimmed(t);
        var r := [t] + rest;
        forall i | 0 <= i < |r| ensures Trimmed(r[i]) {
          if i > 0 {
            assert r[i] == rest[i - 1];
          }
        }
      }
    }
  }

  /** Nothing is dropped exactly when no piece trims to empty, that is, when no piece is blank. */
  lemma {:induction false} TrimAndDropEmptyKeepsAll(xs: seq<string>)
    ensures |TrimAndDropEmpty(xs)| == |xs| <==> forall i :: 0 <= i < |xs| ==> Trim(xs[i]) != []
  {
    if xs != [] {
      TrimAndDropEmptyKeepsAll(xs[1..]);
      assert forall i :: 1 <= i < |xs| ==> xs[i] == xs[1..][i - 1];
    }
  }

  /** A non-empty string with no white space at either end. */
  predicate Trimmed(s: string)
  {
    s != [] && !IsWhiteSpace(s[0]) && !IsWhiteSpace(s[|s| - 1])
  }

  /** String.Split(separators, RemoveEmptyEntries | TrimEntries). */
  function SplitTrimmed(s: string, seps: set<char>): (r: seq<string>)
    ensures forall i :: 0 <= i < |r| ==> Trimmed(r[i])
  {
    TrimAndDropEmptyTrimmed(Split(s, seps));
    TrimAndDropEmpty(Split(s, seps))
  }

  /** IndexOf finds a character at the one position where it occurs first. */
  lemma IndexOfAt(s: string, c: char, k: int)
    requires 0 <= k < |s| && s[k] == c && c !in s[..k]
    ensures IndexOf(s, c) == k
  {
    var r := IndexOf(s, c);
    assert s[k] in s;
    assert forall j :: 0 <= j < k ==> s[..k][j] == s[j];
    assert forall j :: 0 <= j < r ==> s[..r][j] == s[j];
  }

  /** Trim keeps only characters of its input. */
  lemma TrimKeepsChars(s: string)
    ensures forall i :: 0 <= i < |Trim(s)| ==> Trim(s)[i] in s
  {
    var t := TrimStart(s);
    assert forall i :: 0 <= i < |t| ==> t[i] == s[LeadingSpace(s) + i];
    assert forall i :: 0 <= i < |Trim(s)| ==> Trim(s)[i] == t[i];
  }

  /** Trim leaves a trimmed string alone, also after one leading space. */
  lemma TrimOfTrimmed(t: string)
    requires Trimmed(t)
    ensures Trim(t) == t && Trim(" " + t) == t
  {
    assert LeadingSpace(t) == 0 && TrailingSpace(t) == 0;
    var s := " " + t;
    assert s[1..] == t;
    assert LeadingSpace(s) == 1;
  }

  /** A text in brackets is its own trim, and the brackets enclose the text. */
  lemma TrimBracketed(inner: string)
    ensures var line := "[" + inner + "]";
      && Trim(line) == line
      && line[0] == '[' && line[|line| - 1] == ']'
      && line[1..|line| - 1] == inner
  {
    var line := "[" + inner + "]";
    assert line[1..|line| - 1] == inner;
    TrimOfTrimmed(line);
  }

  /** No piece holds a character of `seps`. */
  predicate PiecesAvoid(xs: seq<string>, seps: set<char>)
  {
    forall i, j :: 0 <= i < |xs| && 0 <= j < |xs[i]| ==> xs[i][j] !in seps
  }

  /** Dropping and trimming pieces brings in no character that no piece had. */
  lemma {:induction false} TrimAndDropEmptyAvoids(xs: seq<string>, seps: set<char>)
    requires PiecesAvoid(xs, seps)
    ensures PiecesAvoid(TrimAndDropEmpty(xs), seps)
  {
    if xs != [] {
      assert forall i :: 1 <= i < |xs| ==> xs[1..][i - 1] == xs[i];
      TrimAndDropEmptyAvoids(xs[1..], seps);
      TrimKeepsChars(xs[0]);
      var t := Trim(xs[0]);
      var rest := TrimAndDropEmpty(xs[1..]);
      if t != [] {
        var r := [t] + rest;
        assert TrimAndDropEmpty(xs) == r;
        forall i, j | 0 <= i < |r| && 0 <= j < |r[i]| ensures r[i][j] !in seps {
          if i == 0 {
            var k :| 0 <= k < |xs[0]| && xs[0][k] == t[j];
            assert xs[0][k] !in seps;
          } else {
            assert r[i] == rest[i - 1];
          }
        }
      }
    }
  }

  /** The pieces of a trimming split hold none of the separators. */
  lemma SplitTrimmedAvoids(s: string, seps: set<char>)
    ensures PiecesAvoid(SplitTrimmed(s, seps), seps)
  {
    TrimAndDropEmptyAvoids(Split(s, seps), seps);
  }

  /**
   * Joining trimmed pieces without commas by ", " and splitting the result on
   * ',' with empties removed and entries trimmed gives the pieces back.
   */
  lemma SplitTrimmedJoin(texts: seq<string>)
    requires forall i :: 0 <= i < |texts| ==> Trimmed(texts[i]) && ',' !in texts[i]
    ensures SplitTrimmed(Join(texts, ", "), {','}) == texts
  {
    if texts == [] {
      assert Split("", {','}) == [""];
      assert !IsBlank("") == false;
    } else {
      SplitJoinSpaced(texts, "");
      assert "" + Join(texts, ", ") == Join(texts, ", ");
    }
  }

  /** The pieces a split on ',' cuts from `p` + the ", "-join of `texts`: each after the first keeps its space. */
  function SpacedPieces(p: string, texts: seq<string>): seq<string>
    requires texts != []
    decreases |texts|
  {
    [p + texts[0]] + (if |texts| == 1 then [] else SpacedPieces(" ", texts[1..]))
  }

  /** The induction behind SplitTrimmedJoin: every piece after the first carries one leading space. */
  lemma SplitJoinSpaced(texts: seq<string>, p: string)
    requires texts != [] && (p == "" || p == " ")
    requires forall i :: 0 <= i < |texts| ==> Trimmed(texts[i]) && ',' !in texts[i]
    ensures TrimAndDropEmpty(Split(p + Join(texts, ", "), {','})) == texts
  {
    SplitJoin(texts, p);
    TrimSpacedPieces(texts, p);
  }

  /** Splitting a ", "-join of texts without commas on ',' gives the spaced pieces. */
  lemma {:induction false} SplitJoin(texts: seq<string>, p: string)
    requires texts != [] && ',' !in p
    requires forall i :: 0 <= i < |texts| ==> ',' !in texts[i]
    ensures Split(p + Join(texts, ", "), {','}) == SpacedPieces(p, texts)
  {
    var head := p + texts[0];
    assert ',' !in head;
    if |texts| == 1 {
      SplitNone(head, ',');
    } else {
      var rest := texts[1..];
      JoinComma(p, texts);
      SplitHead(head, " " + Join(rest, ", "), ',');
      SplitJoin(rest, " ");
    }
  }

  /** Trimming the spaced pieces of trimmed texts, dropping none, gives the texts back. */
  lemma TrimSpacedPieces(texts: seq<string>, p: string)
    requires texts != [] && (p == "" || p == " ")
    requires forall i :: 0 <= i < |texts| ==> Trimmed(texts[i])
    ensures TrimAndDropEmpty(SpacedPieces(p, texts)) == texts
  {
    var xs := SpacedPieces(p, texts);
    SpacedPiecesAt(p, texts);
    forall i | 0 <= i < |xs| ensures texts[i] != [] && Trim(xs[i]) == texts[i] {
      TrimPiece(if i == 0 then p else " ", texts[i]);
    }
    TrimAndDropAll(xs, texts);
  }

  /** The spaced pieces: the first text after `p`, every other after one space. */
  lemma {:induction false} SpacedPiecesAt(p: string, texts: seq<string>)
    requires texts != []
    ensures |SpacedPieces(p, texts)| == |texts|
    ensures SpacedPieces(p, texts)[0] == p + texts[0]
    ensures forall i :: 0 < i < |texts| ==> SpacedPieces(p, texts)[i] == " " + texts[i]
    decreases |texts|
  {
    if |texts| > 1 {
      SpacedPiecesAt(" ", texts[1..]);
    }
  }

  /** Pieces that each trim to a non-empty string are all kept, trimmed. */
  lemma {:induction false} TrimAndDropAll(xs: seq<string>, ys: seq<string>)
    requires |xs| == |ys|
    requires forall i :: 0 <= i < |xs| ==> ys[i] != [] && Trim(xs[i]) == ys[i]
    ensures TrimAndDropEmpty(xs) == ys
  {
    if xs != [] {
      TrimAndDropAll(xs[1..], ys[1..]);
      HeadTail(ys);
    }
  }

  /** A non-empty sequence is its head followed by its tail. */
  lemma HeadTail(xs: seq<string>)
    requires xs != []
    ensures xs == [xs[0]] + xs[1..]
  {
  }

  /** A trimmed text after at most one space trims back to itself. */
  lemma TrimPiece(p: string, t: string)
    requires (p == "" || p == " ") && Trimmed(t)
    ensures Trim(p + t) == t
  {
    TrimOfTrimmed(t);
    assert p + t == t || p + t == " " + t;
  }

  /** A piece that does not trim to empty is kept, trimmed, in front of the rest. */
  lemma TrimAndDropCons(head: string, pieces: seq<string>)
    requires Trim(head) != []
    ensures TrimAndDropEmpty([head] + pieces) == [Trim(head)] + TrimAndDropEmpty(pieces)
  {
    assert ([head] + pieces)[1..] == pieces;
  }

  /** Joining by ", " puts a comma after the first piece and a space before the joined rest. */
  lemma JoinComma(p: string, texts: seq<string>)
    requires |texts| >= 2
    ensures p + Join(texts, ", ") == (p + texts[0]) + [','] + (" " + Join(texts[1..], ", "))
  {
    var j := Join(texts[1..], ", ");
    assert Join(texts, ", ") == texts[0] + ", " + j;
    CommaSpace(p, texts[0], j);
  }

  lemma CommaSpace(p: string, t: string, j: string)
    ensures p + (t + ", " + j) == (p + t) + [','] + (" " + j)
  {
    assert ", " + j == [','] + (" " + j);
  }

  /** Splitting text without the separator gives the text as the only piece. */
  lemma SplitNone(s: string, c: char)
    requires c !in s
    ensures Split(s, {c}) == [s]
  {
    assert IndexOfAny(s, {c}) == -1;
  }

  /** Splitting at the first separator: the text before it, then the pieces of the rest. */
  lemma SplitHead(head: string, tail: string, c: char)
    requires c !in head
    ensures Split(head + [c] + tail, {c}) == [head] + Split(tail, {c})
  {
    var s := head + [c] + tail;
    assert s[|head|] == c;
    assert forall i :: 0 <= i < |head| ==> s[i] == head[i];
    assert IndexOfAny(s, {c}) == |head|;
    assert s[..|head|] == head && s[|head| + 1..] == tail;
  }

  /** String.Replace(from, to) on characters. */
  function ReplaceChar(s: string, from: char, to: char): (r: string)
    ensures |r| == |s|
    ensures forall i :: 0 <= i < |s| ==> r[i] == if s[i] == from then to else s[i]
  {
    if s == [] then []
    else [if s[0] == from then to else s[0]] + ReplaceChar(s[1..], from, to)
  }

  /** String.Contains(sub): ordinal substring test. */
  predicate Contains(s: string, sub: string)
  {
    sub <= s || (s != [] && Contains(s[1..], sub))
  }

  /** Char.ToUpperInvariant on the ASCII letters; other characters are kept. */
  function UpperAscii(c: char): (r: char)
    ensures 'a' <= c <= 'z' ==> r as int == c as int - 32
    ensures !('a' <= c <= 'z') ==> r == c
  {
    if 'a' <= c <= 'z' then (c as int - 32) as char else c
  }

  /** String.Equals(other, StringComparison.OrdinalIgnoreCase), folding ASCII letters only. */
  predicate EqualsIgnoreCase(a: string, b: string)
  {
    |a| == |b| && forall i :: 0 <= i < |a| ==> UpperAscii(a[i]) == UpperAscii(b[i])
  }

  /** Ordinal (code-unit) string order, strict. */
  predicate OrdinalLess(a: string, b: string)
  {
    if |a| == 0 then |b| > 0
    else if |b| == 0 then false
    else if a[0] != b[0] then a[0] < b[0]
    else OrdinalLess(a[1..], b[1..])
  }

  lemma {:induction false} OrdinalLessIrreflexive(a: string)
    ensures !OrdinalLess(a, a)
  {
    if |a| > 0 {
      OrdinalLessIrreflexive(a[1..]);
    }
  }

  lemma {:induction false} OrdinalLessTransitive(a: string, b: string, c: string)
    requires OrdinalLess(a, b) && OrdinalLess(b, c)
    ensures OrdinalLess(a, c)
  {
    if |a| > 0 && |b| > 0 && |c| > 0 && a[0] == b[0] == c[0] {
      OrdinalLessTransitive(a[1..], b[1..], c[1..]);
    }
  }

  lemma {:induction false} OrdinalLessTotal(a: string, b: string)
    requires a != b
    ensures OrdinalLess(a, b) || OrdinalLess(b, a)
  {
    if |a| > 0 && |b| > 0 && a[0] == b[0] {
      assert a == [a[0]] + a[1..] && b == [b[0]] + b[1..];
      OrdinalLessTotal(a[1..], b[1..]);
    }
  }

  /** Number of path separators ('/' or '\') in a path: its folder depth. */
  function FolderDepth(s: string): (r: nat)
    ensures r <= |s|
    ensures r == 0 <==> forall i :: 0 <= i < |s| ==> s[i] != '/' && s[i] != '\\'
  {
    if s == [] then 0
    else (if s[0] == '/' || s[0] == '\\' then 1 else 0) + FolderDepth(s[1..])
  }
}
