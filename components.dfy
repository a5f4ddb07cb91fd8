/**
 * The component DSL front end (Onyx.GodeGen.ComponentDSL/ComponentGenerator.cs,
 * Parse): a line-by-line state machine that collects `[...]` attribute lines,
 * opens a component at a `{` line named by the line before it, closes it at
 * `}`, and inside a block turns each `type name;` line into a field of the
 * component last opened. Pending attributes attach to the next component or
 * field opened.
 *
 * The specification functions come first (one entry, one attribute line, one
 * line of the file, the fold over the file); the class ComponentGenerator,
 * whose Parse runs the loops, is at the end, followed by the lemmas.
 */
module Components {
  import opened Wrappers
  import opened Strings
  import opened Types
  import opened Database
  import opened Attributes
  import opened Fields

  /** Component: a C# struct whose Fields list is shared with the copy stored in the result list. */
  datatype Component = Component(
    Name: string,
    FullyQualifiedName: string,
    Attributes: seq<Attribute>,
    Fields: seq<Field>)

  /** Component.IsTransient. */
  predicate IsTransient(c: Component)
  {
    HasAttribute(c.Attributes, TransientKind)
  }

  /** Component.IsReadOnly. */
  predicate IsReadOnlyComponent(c: Component)
  {
    HasAttribute(c.Attributes, ReadOnlyKind)
  }

  /** Component.IsHidden. */
  predicate IsHiddenComponent(c: Component)
  {
    HasAttribute(c.Attributes, HiddenKind)
  }

  // ---------------------------------------------------------------------------
  // One attribute entry.
  // ---------------------------------------------------------------------------

  /** Why one entry of an attribute line makes Parse throw. */
  datatype EntryError =
    | ParameterOutOfRange        // the `(index+1)..endIndex` range is reversed: no `)` after the `(`
    | LoneQuote                  // a parameter that is a single `"` is cut to `[1..^1]`
    | CannotBuild(error: BuildError)

  /** The attribute class name of an entry: all of it, or the text before its first `(`. */
  function EntryName(entry: string): string
  {
    var index := IndexOf(entry, '(');
    if index == -1 then entry else entry[..index]
  }

  /** A parameter wrapped in double quotes loses them. */
  function Unquote(p: string): string
  {
    if |p| >= 2 && p[0] == '"' && p[|p| - 1] == '"' then p[1..|p| - 1] else p
  }

  /**
   * One entry of an attribute line: the attribute it adds, None when no
   * registered class has its name, or the reason the C# code throws. The
   * parameter is cut out and unquoted before the class is looked up, so a
   * malformed parameter fails even under an unknown name.
   */
  function ParseEntry(entry: string): (r: Result<Option<Attribute>, EntryError>)
    ensures r.Success? && r.value.Some? ==> LookupKind(EntryName(entry)) == Some(KindOf(r.value.value))
    ensures r.Success? && r.value.Some? ==> !r.value.value.Range? && !r.value.value.RuntimeOnly? && !r.value.value.Unit?
    ensures LookupKind(EntryName(entry)).None? ==> r.Failure? || r == Success(None)
    ensures LookupKind(EntryName(entry)).None? && r.Failure? ==> r.error == ParameterOutOfRange || r.error == LoneQuote
    ensures r == Failure(ParameterOutOfRange) <==> 0 <= IndexOf(entry, '(') && IndexOf(entry, ')') < IndexOf(entry, '(')
  {
    var index := IndexOf(entry, '(');
    var endIndex := IndexOf(entry, ')');
    if index != -1 && endIndex < index + 1 then Failure(ParameterOutOfRange)
    else
      var quoted := if index == -1 then "" else entry[index + 1..endIndex];
      if |quoted| == 1 && quoted[0] == '"' then Failure(LoneQuote)
      else
        match LookupKind(EntryName(entry))
        case None => Success(None)
        case Some(k) =>
          match Build(k, Unquote(quoted))
          case Failure(e) => Failure(CannotBuild(e))
          case Success(a) => Success(Some(a))
  }

  // ---------------------------------------------------------------------------
  // One attribute line.
  // ---------------------------------------------------------------------------

  /** A failing entry of an attribute line and why it fails. */
  datatype AttributeError = AttributeError(entry: string, error: EntryError)

  /** A trimmed line that starts with `[` and ends with `]`. */
  predicate IsAttributeLine(trimmed: string)
  {
    trimmed != [] && trimmed[0] == '[' && trimmed[|trimmed| - 1] == ']'
  }

  /** The entries between the brackets, split on `,`, trimmed, empty ones dropped. */
  function AttributeEntries(trimmed: string): seq<string>
    requires IsAttributeLine(trimmed)
  {
    SplitTrimmed(trimmed[1..|trimmed| - 1], {','})
  }

  /** The attributes the entries add, in entry order, or the first entry that fails. */
  function LineAttributes(entries: seq<string>): Result<seq<Attribute>, AttributeError>
    decreases |entries|, 0
  {
    if entries == [] then Success([]) else AttributesAfter(entries[..|entries| - 1], entries[|entries| - 1])
  }

  /** The attributes of `entries` followed by the entry `last`. */
  function AttributesAfter(entries: seq<string>, last: string): Result<seq<Attribute>, AttributeError>
    decreases |entries|, 1
  {
    match LineAttributes(entries)
    case Failure(e) => Failure(e)
    case Success(attributes) =>
      match ParseEntry(last)
      case Failure(e) => Failure(AttributeError(last, e))
      case Success(None) => Success(attributes)
      case Success(Some(a)) => Success(attributes + [a])
  }

  // ---------------------------------------------------------------------------
  // One line of the file, and the whole file.
  // ---------------------------------------------------------------------------

  /** Why Parse throws, with the 0-based number of the line it throws at. */
  datatype ParseError =
    | BadAttribute(line: nat, entry: string, error: EntryError)
    | NoComponentName(line: nat)       // a `{` on the first line has no line before it
    | MissingFieldName(line: nat)      // a field line with a single token has no `parts[1]`

  /** Parse's locals between two lines: isComponentBlock, attributes (pending) and components. */
  datatype ParseState = ParseState(isBlock: bool, pending: seq<Attribute>, components: seq<Component>)

  /** Inside a block there is a component to add fields to. */
  predicate Consistent(st: ParseState)
  {
    st.isBlock ==> st.components != []
  }

  /** A trimmed line whose first character is `c`. */
  predicate StartsWith(trimmed: string, c: char)
  {
    trimmed != [] && trimmed[0] == c
  }

  /** The separators of a field line. */
  const FieldSeparators: set<char> := {' ', ';'}

  /** The field a `type name` line declares, taking the pending attributes. */
  function FieldOf(parts: seq<string>, pending: seq<Attribute>, ns: string, db: Registry): Field
    requires |parts| >= 2
  {
    Field(parts[1], Lookup(db, parts[0], ns), "", pending, parts[0])
  }

  /** Adding a field to the component last opened, through the list the stored copy shares. */
  function AddField(components: seq<Component>, f: Field): seq<Component>
    requires components != []
  {
    var n := |components| - 1;
    components[..n] + [components[n].(Fields := components[n].Fields + [f])]
  }

  /** The state after line `i` of `lines`, in namespace `ns` against registry `db`. */
  function ParseLine(lines: seq<string>, i: nat, ns: string, db: Registry, st: ParseState): (r: Result<ParseState, ParseError>)
    requires i < |lines| && Consistent(st)
    ensures r.Success? ==> Consistent(r.value)
  {
    var trimmed := Trim(lines[i]);
    if IsAttributeLine(trimmed) then
      match LineAttributes(AttributeEntries(trimmed))
      case Failure(e) => Failure(BadAttribute(i, e.entry, e.error))
      case Success(attributes) => Success(st.(pending := st.pending + attributes))
    else if StartsWith(trimmed, '{') && !st.isBlock then
      if i == 0 then Failure(NoComponentName(i))
      else
        var name := Trim(lines[i - 1]);
        Success(ParseState(true, [], st.components + [Component(name, ns + "::" + name, st.pending, [])]))
    else if StartsWith(trimmed, '}') && st.isBlock then Success(st.(isBlock := false))
    else if !st.isBlock then Success(st)
    else
      var parts := SplitTrimmed(trimmed, FieldSeparators);
      if parts == [] then Success(st)
      else if |parts| == 1 then Failure(MissingFieldName(i))
      else Success(ParseState(true, [], AddField(st.components, FieldOf(parts, st.pending, ns, db))))
  }

  /** The state after the first `n` lines, or the first line that throws. */
  function ParseUpTo(lines: seq<string>, n: nat, ns: string, db: Registry): (r: Result<ParseState, ParseError>)
    requires n <= |lines|
    ensures r.Success? ==> Consistent(r.value)
    decreases n, 0
  {
    if n == 0 then Success(ParseState(false, [], [])) else ParseAfter(lines, n - 1, ns, db)
  }

  /** The state after line `i`, reached from the state after the lines before it. */
  function ParseAfter(lines: seq<string>, i: nat, ns: string, db: Registry): (r: Result<ParseState, ParseError>)
    requires i < |lines|
    ensures r.Success? ==> Consistent(r.value)
    decreases i, 1
  {
    match ParseUpTo(lines, i, ns, db)
    case Failure(e) => Failure(e)
    case Success(st) => ParseLine(lines, i, ns, db, st)
  }

  /** ComponentGenerator.Parse on the lines of a definition file. */
  function ParseComponents(lines: seq<string>, ns: string, db: Registry): Result<seq<Component>, ParseError>
  {
    match ParseUpTo(lines, |lines|, ns, db)
    case Failure(e) => Failure(e)
    case Success(st) => Success(st.components)
  }

  // ---------------------------------------------------------------------------
  // The generator object.
  // ---------------------------------------------------------------------------

  /**
   * ComponentGenerator, with the two fields Parse reads: the namespace stack
   * of the module and the type database fields are resolved against.
   */
  class ComponentGenerator {
    var moduleNamespaceStack: seq<string>
    var typeDatabase: TypeDatabase

    constructor(typeDatabase: TypeDatabase, moduleNamespaceStack: seq<string>)
      ensures this.typeDatabase == typeDatabase && this.moduleNamespaceStack == moduleNamespaceStack
    {
      this.typeDatabase := typeDatabase;
      this.moduleNamespaceStack := moduleNamespaceStack;
    }

    /** Parse over the lines File.ReadAllLines returned. */
    method Parse(lines: seq<string>) returns (r: Result<seq<Component>, ParseError>)
      ensures r == ParseComponents(lines, Join(moduleNamespaceStack, "::"), typeDatabase.types)
    {
      var isComponentBlock := false;
      var attributes: seq<Attribute> := [];
      var components: seq<Component> := [];
      var currentNamespace := Join(moduleNamespaceStack, "::");
      ghost var db := typeDatabase.types;
      var i := 0;
      while i < |lines|
        invariant i <= |lines|
        invariant ParseUpTo(lines, i, currentNamespace, db) == Success(ParseState(isComponentBlock, attributes, components))
      {
        var next := ReadLine(lines, i, currentNamespace, isComponentBlock, attributes, components);
        if next.Failure? {
          ParseFailsFrom(lines, i + 1, |lines|, currentNamespace, db);
          return Failure(next.error);
        }
        isComponentBlock, attributes, components := next.value.isBlock, next.value.pending, next.value.components;
        i := i + 1;
      }
      r := Success(components);
    }

    /**
     * The body of Parse's loop for line `i`: the new values of
     * isComponentBlock, attributes and components, or the exception.
     */
    method ReadLine(lines: seq<string>, i: nat, currentNamespace: string, isComponentBlock: bool,
                    attributes: seq<Attribute>, components: seq<Component>)
      returns (r: Result<ParseState, ParseError>)
      requires i < |lines| && Consistent(ParseState(isComponentBlock, attributes, components))
      ensures r == ParseLine(lines, i, currentNamespace, typeDatabase.types, ParseState(isComponentBlock, attributes, components))
    {
      var trimmed := Trim(lines[i]);
      if IsAttributeLine(trimmed) {
        var parsed := ReadAttributeLine(trimmed);
        if parsed.Failure? {
          return Failure(BadAttribute(i, parsed.error.entry, parsed.error.error));
        }
        return Success(ParseState(isComponentBlock, attributes + parsed.value, components));
      }
      if StartsWith(trimmed, '{') && !isComponentBlock {
        if i == 0 {
          return Failure(NoComponentName(i));
        }
        var name := Trim(lines[i - 1]);
        var currentComponent := Component(name, currentNamespace + "::" + name, attributes, []);
        return Success(ParseState(true, [], components + [currentComponent]));
      }
      if StartsWith(trimmed, '}') && isComponentBlock {
        return Success(ParseState(false, attributes, components));
      }
      if !isComponentBlock {
        return Success(ParseState(isComponentBlock, attributes, components));
      }
      var parts := SplitTrimmed(trimmed, FieldSeparators);
      if parts == [] {
        return Success(ParseState(isComponentBlock, attributes, components));
      }
      var resolved := typeDatabase.ResolveTypeName(parts[0], currentNamespace);
      if |parts| == 1 {
        return Failure(MissingFieldName(i));
      }
      var field := Field(parts[1], resolved, "", attributes, parts[0]);
      return Success(ParseState(true, [], AddField(components, field)));
    }
  }

  /** The foreach over the entries of one attribute line. */
  method ReadAttributeLine(trimmed: string) returns (r: Result<seq<Attribute>, AttributeError>)
    requires IsAttributeLine(trimmed)
    ensures r == LineAttributes(AttributeEntries(trimmed))
  {
    var entries := SplitTrimmed(trimmed[1..|trimmed| - 1], {','});
    var attributes: seq<Attribute> := [];
    for k := 0 to |entries|
      invariant LineAttributes(entries[..k]) == Success(attributes)
    {
      AttributesPrefix(entries, k);
      var parsed := ParseEntry(entries[k]);
      if parsed.Failure? {
        r := Failure(AttributeError(entries[k], parsed.error));
        LineAttributesFailsFrom(entries, k + 1);
        return;
      }
      if parsed.value.Some? {
        attributes := attributes + [parsed.value.value];
      }
    }
    assert entries[..|entries|] == entries;
    r := Success(attributes);
  }

  // ---------------------------------------------------------------------------
  // Failures are final.
  // ---------------------------------------------------------------------------

  /** The first k + 1 entries are the first k followed by entry k. */
  lemma AttributesPrefix(entries: seq<string>, k: nat)
    requires k < |entries|
    ensures LineAttributes(entries[..k + 1]) == AttributesAfter(entries[..k], entries[k])
  {
    assert entries[..k + 1][..k] == entries[..k];
  }

  /** Once an entry fails, the line fails with that entry whatever follows it. */
  lemma {:induction false} LineAttributesFailsFrom(entries: seq<string>, k: nat)
    requires k <= |entries| && LineAttributes(entries[..k]).Failure?
    ensures LineAttributes(entries) == LineAttributes(entries[..k])
    decreases |entries| - k
  {
    if k < |entries| {
      assert entries[..k + 1][..k] == entries[..k];
      LineAttributesFailsFrom(entries, k + 1);
    } else {
      assert entries[..k] == entries;
    }
  }

  /** When the first `n` lines parse, so do the first `n - 1`. */
  lemma ParsedBefore(lines: seq<string>, n: nat, ns: string, db: Registry)
    requires 0 < n <= |lines| && ParseUpTo(lines, n, ns, db).Success?
    ensures ParseUpTo(lines, n - 1, ns, db).Success?
  {
  }

  /** Once a line throws, Parse throws there whatever lines follow. */
  lemma {:induction false} ParseFailsFrom(lines: seq<string>, m: nat, n: nat, ns: string, db: Registry)
    requires m <= n <= |lines| && ParseUpTo(lines, m, ns, db).Failure?
    ensures ParseUpTo(lines, n, ns, db) == ParseUpTo(lines, m, ns, db)
    decreases n
  {
    if m < n {
      var k: nat := n - 1;
      ParseFailsFrom(lines, m, k, ns, db);
      ParseFailsStep(lines, k, ns, db);
    }
  }

  /** A line after one that throws changes nothing. */
  lemma ParseFailsStep(lines: seq<string>, m: nat, ns: string, db: Registry)
    requires m < |lines| && ParseUpTo(lines, m, ns, db).Failure?
    ensures ParseUpTo(lines, m + 1, ns, db) == ParseUpTo(lines, m, ns, db)
  {
  }

  /** A `{` on the first line opens a component with no line to name it: Parse throws there. */
  lemma OpenOnFirstLine(lines: seq<string>, ns: string, db: Registry)
    requires |lines| > 0 && StartsWith(Trim(lines[0]), '{')
    ensures ParseComponents(lines, ns, db) == Failure(NoComponentName(0))
  {
    assert ParseUpTo(lines, 1, ns, db) == Failure(NoComponentName(0));
    ParseFailsFrom(lines, 1, |lines|, ns, db);
  }

  /**
   * No entry adds a Range: an entry whose name finds the Range class fails,
   * since Range has no public constructor.
   */
  lemma RangeNeverBuilds(entry: string)
    requires LookupKind(EntryName(entry)) == Some(RangeKind)
    ensures ParseEntry(entry).Failure?
  {
  }

  /**
   * Written as `[Range(lo, hi)]`, the line is split at the comma into the
   * entries `Range(lo` and `hi)`; the first, with no `)`, has a reversed
   * parameter range, so the whole line fails there.
   */
  lemma RangeSplitByComma(lo: string, hi: string)
    requires Trimmed(lo) && Trimmed(hi) && ',' !in lo && ',' !in hi && ')' !in lo
    ensures var line := "[Range(" + lo + ", " + hi + ")]";
      && Trim(line) == line
      && IsAttributeLine(line)
      && AttributeEntries(line) == ["Range(" + lo, hi + ")"]
      && LineAttributes(AttributeEntries(line)) == Failure(AttributeError("Range(" + lo, ParameterOutOfRange))
  {
    var first, second := "Range(" + lo, hi + ")";
    var entries := [first, second];
    assert Join(entries, ", ") == first + ", " + second;
    assert "[Range(" + lo + ", " + hi + ")]" == "[" + Join(entries, ", ") + "]";
    RangeEntriesPlain(lo, hi);
    EntriesLine(entries);
    RangeFirstHalfFails(lo);
    FirstEntryFails(first, second);
  }

  /** `Range(lo` with no `)` has its `)` before its `(`: a reversed parameter range. */
  lemma RangeFirstHalfFails(lo: string)
    requires ')' !in lo
    ensures ParseEntry("Range(" + lo) == Failure(ParameterOutOfRange)
  {
    IndexOfAt("Range(" + lo, '(', 5);
  }

  /** The two halves of `Range(lo, hi)` are trimmed and hold no comma. */
  lemma RangeEntriesPlain(lo: string, hi: string)
    requires Trimmed(lo) && Trimmed(hi) && ',' !in lo && ',' !in hi
    ensures var entries := ["Range(" + lo, hi + ")"];
      forall i :: 0 <= i < |entries| ==> Trimmed(entries[i]) && ',' !in entries[i]
  {
    var first, second := "Range(" + lo, hi + ")";
    assert first[0] == 'R' && first[|first| - 1] == lo[|lo| - 1];
    assert second[0] == hi[0] && second[|second| - 1] == ')';
    assert forall c :: c in first ==> c in "Range(" || c in lo;
    assert forall c :: c in second ==> c in hi || c == ')';
  }

  /** A line whose first of two entries fails fails with that entry's error. */
  lemma FirstEntryFails(first: string, second: string)
    requires ParseEntry(first).Failure?
    ensures LineAttributes([first, second]) == Failure(AttributeError(first, ParseEntry(first).error))
  {
    var entries := [first, second];
    assert entries[..|entries| - 1] == [first] && entries[|entries| - 1] == second;
    assert [first][..0] == [];
    assert LineAttributes([]) == Success([]);
    assert AttributesAfter([], first) == Failure(AttributeError(first, ParseEntry(first).error));
    assert LineAttributes([first]) == AttributesAfter([], first);
    assert LineAttributes(entries) == AttributesAfter([first], second);
  }

  // ---------------------------------------------------------------------------
  // One step of the fold, by the kind of line.
  // ---------------------------------------------------------------------------

  /** An attribute line only adds the attributes it writes to the pending ones. */
  lemma StepAttributes(lines: seq<string>, n: nat, ns: string, db: Registry)
    requires 0 < n <= |lines| && ParseUpTo(lines, n - 1, ns, db).Success?
    requires IsAttributeLine(Trim(lines[n - 1]))
    ensures var prev := ParseUpTo(lines, n - 1, ns, db).value;
      ParseUpTo(lines, n, ns, db).Success? ==>
        ParseUpTo(lines, n, ns, db).value == prev.(pending := prev.pending + LineAnnotations(lines[n - 1]))
  {
  }

  /** A `{` outside a block opens a component named by the line before it, taking the pending attributes. */
  lemma StepOpen(lines: seq<string>, n: nat, ns: string, db: Registry)
    requires 0 < n <= |lines| && ParseUpTo(lines, n - 1, ns, db).Success?
    requires var t := Trim(lines[n - 1]);
      !IsAttributeLine(t) && StartsWith(t, '{') && !ParseUpTo(lines, n - 1, ns, db).value.isBlock
    ensures var prev := ParseUpTo(lines, n - 1, ns, db).value;
      ParseUpTo(lines, n, ns, db).Success? ==>
        && n >= 2
        && ParseUpTo(lines, n, ns, db).value ==
             ParseState(true, [], prev.components + [Component(Trim(lines[n - 2]), ns + "::" + Trim(lines[n - 2]), prev.pending, [])])
  {
  }

  /** A `type name` line inside a block adds a field to the last component, taking the pending attributes. */
  lemma StepField(lines: seq<string>, n: nat, ns: string, db: Registry)
    requires 0 < n <= |lines| && ParseUpTo(lines, n - 1, ns, db).Success?
    requires var t := Trim(lines[n - 1]);
      && !IsAttributeLine(t) && !StartsWith(t, '}') && ParseUpTo(lines, n - 1, ns, db).value.isBlock
      && |SplitTrimmed(t, FieldSeparators)| >= 2
    ensures var prev := ParseUpTo(lines, n - 1, ns, db).value;
      && prev.components != []
      && ParseUpTo(lines, n, ns, db) ==
           Success(ParseState(true, [], AddField(prev.components, FieldOf(SplitTrimmed(Trim(lines[n - 1]), FieldSeparators), prev.pending, ns, db))))
  {
  }

  /**
   * Every other line keeps the components and the pending attributes, or
   * throws; a `}` inside a block closes it, and any other such line leaves
   * the block flag as it was.
   */
  lemma StepKeeps(lines: seq<string>, n: nat, ns: string, db: Registry)
    requires 0 < n <= |lines| && ParseUpTo(lines, n - 1, ns, db).Success?
    requires var t := Trim(lines[n - 1]); var prev := ParseUpTo(lines, n - 1, ns, db).value;
      && !IsAttributeLine(t)
      && !(StartsWith(t, '{') && !prev.isBlock)
      && !(prev.isBlock && !StartsWith(t, '}') && |SplitTrimmed(t, FieldSeparators)| >= 2)
    ensures var prev := ParseUpTo(lines, n - 1, ns, db).value;
      ParseUpTo(lines, n, ns, db).Success? ==>
        ParseUpTo(lines, n, ns, db).value == prev.(isBlock := prev.isBlock && !StartsWith(Trim(lines[n - 1]), '}'))
  {
  }

  // ---------------------------------------------------------------------------
  // What a successful parse holds.
  // ---------------------------------------------------------------------------

  /** A field as Parse builds it: its type resolved from the name as written, both names single trimmed tokens. */
  predicate WellFormedField(f: Field, ns: string, db: Registry)
  {
    && f.Type == Lookup(db, f.FallbackTypeName, ns)
    && f.DefaultValue == ""
    && Trimmed(f.Name) && Trimmed(f.FallbackTypeName)
    && (forall j :: 0 <= j < |f.Name| ==> f.Name[j] !in FieldSeparators)
    && (forall j :: 0 <= j < |f.FallbackTypeName| ==> f.FallbackTypeName[j] !in FieldSeparators)
  }

  /** A component as Parse builds it: qualified by the module namespace, its fields well formed. */
  predicate WellFormedComponent(c: Component, ns: string, db: Registry)
  {
    && c.FullyQualifiedName == ns + "::" + c.Name
    && forall k :: 0 <= k < |c.Fields| ==> WellFormedField(c.Fields[k], ns, db)
  }

  predicate WellFormed(components: seq<Component>, ns: string, db: Registry)
  {
    forall j :: 0 <= j < |components| ==> WellFormedComponent(components[j], ns, db)
  }

  /**
   * Every component Parse returns has the fully-qualified name
   * `namespace::name`, and every field's type is what the database resolves
   * its type name to in the module namespace.
   */
  lemma {:induction false} ParseWellFormed(lines: seq<string>, n: nat, ns: string, db: Registry)
    requires n <= |lines|
    ensures ParseUpTo(lines, n, ns, db).Success? ==> WellFormed(ParseUpTo(lines, n, ns, db).value.components, ns, db)
  {
    if n > 0 {
      ParseWellFormed(lines, n - 1, ns, db);
      WellFormedStep(lines, n, ns, db);
    }
  }

  /** Line `n - 1` keeps what the lines before it parsed well formed. */
  lemma WellFormedStep(lines: seq<string>, n: nat, ns: string, db: Registry)
    requires 0 < n <= |lines|
    requires ParseUpTo(lines, n - 1, ns, db).Success? ==> WellFormed(ParseUpTo(lines, n - 1, ns, db).value.components, ns, db)
    ensures ParseUpTo(lines, n, ns, db).Success? ==> WellFormed(ParseUpTo(lines, n, ns, db).value.components, ns, db)
  {
    var p := ParseUpTo(lines, n - 1, ns, db);
    if p.Success? {
      var prev := p.value;
      var t := Trim(lines[n - 1]);
      if IsAttributeLine(t) {
        StepAttributes(lines, n, ns, db);
      } else if StartsWith(t, '{') && !prev.isBlock {
        StepOpen(lines, n, ns, db);
        if n >= 2 {
          var name := Trim(lines[n - 2]);
          OpenWellFormed(prev.components, Component(name, ns + "::" + name, prev.pending, []), ns, db);
        }
      } else if prev.isBlock && !StartsWith(t, '}') && |SplitTrimmed(t, FieldSeparators)| >= 2 {
        StepField(lines, n, ns, db);
        SplitTrimmedAvoids(t, FieldSeparators);
        AddFieldWellFormed(prev.components, FieldOf(SplitTrimmed(t, FieldSeparators), prev.pending, ns, db), ns, db);
      } else {
        StepKeeps(lines, n, ns, db);
      }
    }
  }


  /** Opening a component qualified by the namespace keeps the components well formed. */
  lemma OpenWellFormed(components: seq<Component>, c: Component, ns: string, db: Registry)
    requires WellFormed(components, ns, db) && c.Fields == [] && c.FullyQualifiedName == ns + "::" + c.Name
    ensures WellFormed(components + [c], ns, db)
  {
    assert WellFormedComponent(c, ns, db);
  }

  /** Adding a well-formed field keeps the components well formed. */
  lemma AddFieldWellFormed(components: seq<Component>, f: Field, ns: string, db: Registry)
    requires components != [] && WellFormed(components, ns, db) && WellFormedField(f, ns, db)
    ensures WellFormed(AddField(components, f), ns, db)
  {
    var n := |components| - 1;
    var c := components[n];
    var fields := c.Fields + [f];
    assert forall k :: 0 <= k < |fields| ==> fields[k] == if k < |c.Fields| then c.Fields[k] else f;
    assert WellFormedComponent(c.(Fields := fields), ns, db);
  }

  // ---------------------------------------------------------------------------
  // File order.
  // ---------------------------------------------------------------------------

  /**
   * The type name a parsed field reports is the name the database resolves
   * its written type name to, or the written name when nothing is found.
   */
  lemma ParsedFieldTypeName(f: Field, ns: string, db: Registry)
    requires Keyed(db) && WellFormedField(f, ns, db)
    ensures LookupKey(db, f.FallbackTypeName, ns).Some? ==> TypeName(f) == LookupKey(db, f.FallbackTypeName, ns).value
    ensures LookupKey(db, f.FallbackTypeName, ns).None? ==> TypeName(f) == f.FallbackTypeName
  {
  }

  /** `b` keeps every component of `a` in place, with the same names and attributes and only more fields after the old ones. */
  predicate Extends(a: seq<Component>, b: seq<Component>)
  {
    && |a| <= |b|
    && forall j :: 0 <= j < |a| ==>
         && b[j].Name == a[j].Name
         && b[j].FullyQualifiedName == a[j].FullyQualifiedName
         && b[j].Attributes == a[j].Attributes
         && a[j].Fields <= b[j].Fields
  }

  /**
   * Components come out in the order of their `{` lines and fields in the
   * order of their lines: what the first m lines produce is kept, in place,
   * by every later line.
   */
  lemma ParseInFileOrder(lines: seq<string>, m: nat, n: nat, ns: string, db: Registry)
    requires m <= n <= |lines|
    requires ParseUpTo(lines, n, ns, db).Success?
    ensures ParseUpTo(lines, m, ns, db).Success?
    ensures Extends(ParseUpTo(lines, m, ns, db).value.components, ParseUpTo(lines, n, ns, db).value.components)
  {
    if ParseUpTo(lines, m, ns, db).Failure? {
      ParseFailsFrom(lines, m, n, ns, db);
    }
    var produced := (i: nat) => ComponentsUpTo(lines, i, ns, db);
    forall i: nat | m < i <= n ensures Extends(produced(i - 1), produced(i)) {
      ComponentsStep(lines, i, n, ns, db);
    }
    ExtendsChain(produced, m, n);
  }

  /** The components the first `i` lines produce, or none when they throw. */
  function ComponentsUpTo(lines: seq<string>, i: nat, ns: string, db: Registry): seq<Component>
  {
    if i <= |lines| && ParseUpTo(lines, i, ns, db).Success? then ParseUpTo(lines, i, ns, db).value.components else []
  }

  /** Below a prefix that parses, each line only extends the components of the lines before it. */
  lemma ComponentsStep(lines: seq<string>, i: nat, n: nat, ns: string, db: Registry)
    requires 0 < i <= n <= |lines| && ParseUpTo(lines, n, ns, db).Success?
    ensures Extends(ComponentsUpTo(lines, i - 1, ns, db), ComponentsUpTo(lines, i, ns, db))
  {
    if ParseUpTo(lines, i, ns, db).Failure? {
      ParseFailsFrom(lines, i, n, ns, db);
    }
    ExtendsStep(lines, i, ns, db);
  }

  /** A chain of extensions extends from any of its points to any later one. */
  lemma {:induction false} ExtendsChain(produced: nat -> seq<Component>, m: nat, n: nat)
    requires m <= n
    requires forall i :: m < i <= n ==> Extends(produced(i - 1), produced(i))
    ensures Extends(produced(m), produced(n))
    decreases n
  {
    if m < n {
      ExtendsChain(produced, m, n - 1);
      ExtendsTransitive(produced(m), produced(n - 1), produced(n));
    } else {
      ExtendsReflexive(produced(m));
    }
  }

  /** When the first `n` lines parse, so do the first `n - 1`, and line `n - 1` only extends their components. */
  lemma ExtendsStep(lines: seq<string>, n: nat, ns: string, db: Registry)
    requires 0 < n <= |lines|
    requires ParseUpTo(lines, n, ns, db).Success?
    ensures ParseUpTo(lines, n - 1, ns, db).Success?
    ensures Extends(ParseUpTo(lines, n - 1, ns, db).value.components, ParseUpTo(lines, n, ns, db).value.components)
  {
    ParsedBefore(lines, n, ns, db);
    var p := ParseUpTo(lines, n - 1, ns, db);
    var prev := p.value;
    var t := Trim(lines[n - 1]);
    if IsAttributeLine(t) {
      StepAttributes(lines, n, ns, db);
      ExtendsReflexive(prev.components);
    } else if StartsWith(t, '{') && !prev.isBlock {
      StepOpen(lines, n, ns, db);
      var name := Trim(lines[n - 2]);
      ExtendsAppend(prev.components, Component(name, ns + "::" + name, prev.pending, []));
    } else if prev.isBlock && !StartsWith(t, '}') && |SplitTrimmed(t, FieldSeparators)| >= 2 {
      StepField(lines, n, ns, db);
      ExtendsAddField(prev.components, FieldOf(SplitTrimmed(t, FieldSeparators), prev.pending, ns, db));
    } else {
      StepKeeps(lines, n, ns, db);
      ExtendsReflexive(prev.components);
    }
  }


  lemma ExtendsAppend(a: seq<Component>, c: Component)
    ensures Extends(a, a + [c])
  {
  }

  lemma ExtendsAddField(a: seq<Component>, f: Field)
    requires a != []
    ensures Extends(a, AddField(a, f))
  {
    var n := |a| - 1;
    assert AddField(a, f)[..n] == a[..n];
  }

  lemma ExtendsReflexive(a: seq<Component>)
    ensures Extends(a, a)
  {
  }

  lemma ExtendsTransitive(a: seq<Component>, b: seq<Component>, c: seq<Component>)
    requires Extends(a, b) && Extends(b, c)
    ensures Extends(a, c)
  {
    forall j | 0 <= j < |a| ensures a[j].Fields <= c[j].Fields {
      assert a[j].Fields <= b[j].Fields;
    }
  }

  // ---------------------------------------------------------------------------
  // Attribute conservation.
  // ---------------------------------------------------------------------------

  /** The attributes attached to fields, in field order. */
  function FieldAttributes(fields: seq<Field>): seq<Attribute>
  {
    if fields == [] then [] else FieldAttributes(fields[..|fields| - 1]) + fields[|fields| - 1].Attributes
  }

  /** The attributes attached to components and their fields: each component's own, then its fields'. */
  function Attached(components: seq<Component>): seq<Attribute>
  {
    if components == [] then []
    else
      var c := components[|components| - 1];
      Attached(components[..|components| - 1]) + c.Attributes + FieldAttributes(c.Fields)
  }

  /** The attributes one line writes: those of an attribute line that parses, else none. */
  function LineAnnotations(line: string): seq<Attribute>
  {
    var trimmed := Trim(line);
    if IsAttributeLine(trimmed) then
      match LineAttributes(AttributeEntries(trimmed))
      case Success(attributes) => attributes
      case Failure(_) => []
    else []
  }

  /** The attributes the first `n` lines write, in line order. */
  function Annotations(lines: seq<string>, n: nat): seq<Attribute>
    requires n <= |lines|
  {
    if n == 0 then [] else Annotations(lines, n - 1) + LineAnnotations(lines[n - 1])
  }

  /**
   * No attribute is lost or attached twice: the attributes attached to the
   * components and fields, in file order, followed by the ones still pending,
   * are exactly the attributes the lines wrote.
   */
  lemma {:induction false} AttributesConserved(lines: seq<string>, n: nat, ns: string, db: Registry)
    requires n <= |lines|
    ensures ParseUpTo(lines, n, ns, db).Success? ==>
      Attached(ParseUpTo(lines, n, ns, db).value.components) + ParseUpTo(lines, n, ns, db).value.pending == Annotations(lines, n)
  {
    if n > 0 {
      AttributesConserved(lines, n - 1, ns, db);
      ConservedStep(lines, n, ns, db);
    }
  }

  /** Line `n - 1` adds to what is attached or pending exactly the attributes it writes. */
  lemma ConservedStep(lines: seq<string>, n: nat, ns: string, db: Registry)
    requires 0 < n <= |lines|
    requires ParseUpTo(lines, n - 1, ns, db).Success? ==>
      Attached(ParseUpTo(lines, n - 1, ns, db).value.components) + ParseUpTo(lines, n - 1, ns, db).value.pending == Annotations(lines, n - 1)
    ensures ParseUpTo(lines, n, ns, db).Success? ==>
      Attached(ParseUpTo(lines, n, ns, db).value.components) + ParseUpTo(lines, n, ns, db).value.pending == Annotations(lines, n)
  {
    var p := ParseUpTo(lines, n - 1, ns, db);
    if p.Success? {
      var prev := p.value;
      var t := Trim(lines[n - 1]);
      var before := Attached(prev.components);
      if IsAttributeLine(t) {
        StepAttributes(lines, n, ns, db);
        AppendAssociates(before, prev.pending, LineAnnotations(lines[n - 1]));
      } else {
        NoAnnotations(lines[n - 1]);
        if StartsWith(t, '{') && !prev.isBlock {
          StepOpen(lines, n, ns, db);
          if n >= 2 {
            var name := Trim(lines[n - 2]);
            AttachedOpen(prev.components, Component(name, ns + "::" + name, prev.pending, []));
          }
        } else if prev.isBlock && !StartsWith(t, '}') && |SplitTrimmed(t, FieldSeparators)| >= 2 {
          StepField(lines, n, ns, db);
          AttachedAddField(prev.components, FieldOf(SplitTrimmed(t, FieldSeparators), prev.pending, ns, db));
        } else {
          StepKeeps(lines, n, ns, db);
        }
      }
    }
  }


  lemma AppendAssociates(a: seq<Attribute>, b: seq<Attribute>, c: seq<Attribute>)
    ensures a + (b + c) == a + b + c
  {
  }

  /** A line that is not an attribute line writes no attributes. */
  lemma NoAnnotations(line: string)
    requires !IsAttributeLine(Trim(line))
    ensures LineAnnotations(line) == []
  {
  }

  /** A component opened with no fields adds its own attributes. */
  lemma AttachedOpen(components: seq<Component>, c: Component)
    requires c.Fields == []
    ensures Attached(components + [c]) == Attached(components) + c.Attributes
  {
    assert (components + [c])[..|components|] == components;
  }

  /** A field added to the last component adds its attributes at the end. */
  lemma AttachedAddField(components: seq<Component>, f: Field)
    requires components != []
    ensures Attached(AddField(components, f)) == Attached(components) + f.Attributes
  {
    var n := |components| - 1;
    var c := components[n];
    var next := AddField(components, f);
    assert next[..n] == components[..n];
    assert (c.Fields + [f])[..|c.Fields|] == c.Fields;
  }

  // ---------------------------------------------------------------------------
  // Written attributes come back.
  // ---------------------------------------------------------------------------

  /**
   * The attributes whose ToString text Parse reads back as themselves: the
   * markers, Editor with a value free of `)` and `,`, and Min and Max with
   * such a value that is not itself quoted.
   */
  predicate Reparsable(a: Attribute)
  {
    match a
    case ReadOnly => true
    case Transient => true
    case Hidden => true
    case Editor(v) => v != [] && ')' !in v && ',' !in v
    case Min(v) => v != [] && ')' !in v && ',' !in v && !(v[0] == '"' && v[|v| - 1] == '"')
    case Max(v) => v != [] && ')' !in v && ',' !in v && !(v[0] == '"' && v[|v| - 1] == '"')
    case _ => false
  }

  /** An entry written as its attribute's ToString text parses back to that attribute. */
  lemma ParseEntryRoundTrip(a: Attribute)
    requires Reparsable(a)
    ensures ParseEntry(AttributeText(a)) == Success(Some(a))
  {
    WrittenNameBare(a);
    WrittenNameFound(a);
    if a.Editor? || a.Min? || a.Max? {
      WrittenCallText(a);
      ReparsableParameter(a);
      ParseCall(WrittenName(a), WrittenParameter(a), KindOf(a));
    } else {
      WrittenBareText(a);
      ParseBare(WrittenName(a), KindOf(a));
    }
  }

  /** The parameter a reparsable Editor, Min or Max writes has no `)`, is no lone quote, and builds the attribute back. */
  lemma ReparsableParameter(a: Attribute)
    requires Reparsable(a) && (a.Editor? || a.Min? || a.Max?)
    ensures var p := WrittenParameter(a);
      && ')' !in p && !(|p| == 1 && p[0] == '"')
      && Build(KindOf(a), Unquote(p)) == Success(a)
  {
    if a.Editor? {
      var p := WrittenParameter(a);
      assert p[1..|p| - 1] == a.editor;
    }
  }

  /** An entry without `(` names its class and passes no parameter. */
  lemma ParseBare(name: string, k: Kind)
    requires '(' !in name && LookupKind(name) == Some(k)
    ensures ParseEntry(name) == match Build(k, "") case Failure(e) => Failure(CannotBuild(e)) case Success(a) => Success(Some(a))
  {
    assert IndexOf(name, '(') == -1;
  }

  /** An entry `name(p)` names its class by `name` and passes p, unquoted. */
  lemma ParseCall(name: string, p: string, k: Kind)
    requires '(' !in name && ')' !in name && ')' !in p && !(|p| == 1 && p[0] == '"')
    requires LookupKind(name) == Some(k)
    ensures ParseEntry(name + "(" + p + ")") == match Build(k, Unquote(p)) case Failure(e) => Failure(CannotBuild(e)) case Success(a) => Success(Some(a))
  {
    CallText(name, p);
  }

  /** An entry `Name("v")` adds a Name attribute holding v, quotes removed. */
  lemma ParseNameEntry(v: string)
    requires v != [] && ')' !in v
    ensures ParseEntry("Name(\"" + v + "\")") == Success(Some(Name(v)))
  {
    assert "Name(\"" + v + "\")" == "Name" + "(" + ("\"" + v + "\"") + ")";
    LookupName();
    ParseQuotedCall("Name", v, NameKind);
  }

  /** An entry `name("v")` passes v, quotes removed, to the class `name` finds. */
  lemma ParseQuotedCall(name: string, v: string, k: Kind)
    requires '(' !in name && ')' !in name && v != [] && ')' !in v
    requires LookupKind(name) == Some(k)
    ensures ParseEntry(name + "(" + ("\"" + v + "\"") + ")") == match Build(k, v) case Failure(e) => Failure(CannotBuild(e)) case Success(a) => Success(Some(a))
  {
    var p := "\"" + v + "\"";
    assert Unquote(p) == v;
    ParseCall(name, p, k);
  }

  /** In `name(p)`, with no `(` in the name and no `)` in p, the entry name is `name` and the parameter text p. */
  lemma CallText(name: string, p: string)
    requires '(' !in name && ')' !in name && ')' !in p
    ensures var text := name + "(" + p + ")";
      && IndexOf(text, '(') == |name|
      && IndexOf(text, ')') == |text| - 1
      && text[|name| + 1..|text| - 1] == p
      && EntryName(text) == name
  {
    var text := name + "(" + p + ")";
    assert text[..|name|] == name;
    IndexOfAt(text, '(', |name|);
    assert text[..|text| - 1] == name + "(" + p;
    IndexOfAt(text, ')', |text| - 1);
    assert text[|name| + 1..|text| - 1] == p;
  }

  /** The ToString texts of attributes, one entry each. */
  function Texts(attributes: seq<Attribute>): (r: seq<string>)
    ensures |r| == |attributes|
  {
    seq(|attributes|, i requires 0 <= i < |attributes| => AttributeText(attributes[i]))
  }

  /** An attribute line listing the attributes' texts, separated by ", ". */
  function AttributeLineText(attributes: seq<Attribute>): string
  {
    "[" + Join(Texts(attributes), ", ") + "]"
  }

  /**
   * Writing reparsable attributes as one attribute line and parsing it gives
   * them back, in order: the line is its own trim, is an attribute line, and
   * its entries add exactly these attributes.
   */
  lemma AttributeLineRoundTrip(attributes: seq<Attribute>)
    requires forall i :: 0 <= i < |attributes| ==> Reparsable(attributes[i])
    ensures var line := AttributeLineText(attributes);
      && Trim(line) == line
      && IsAttributeLine(line)
      && LineAttributes(AttributeEntries(line)) == Success(attributes)
  {
    TextsReparse(attributes);
    EntriesLine(Texts(attributes));
    EntriesParse(Texts(attributes), attributes);
  }

  /** Trimmed entries without commas, joined by ", " in brackets, form an attribute line whose entries they are. */
  lemma EntriesLine(texts: seq<string>)
    requires forall i :: 0 <= i < |texts| ==> Trimmed(texts[i]) && ',' !in texts[i]
    ensures var line := "[" + Join(texts, ", ") + "]";
      && Trim(line) == line
      && IsAttributeLine(line)
      && AttributeEntries(line) == texts
  {
    TrimBracketed(Join(texts, ", "));
    SplitTrimmedJoin(texts);
  }

  /** Each text of reparsable attributes is a trimmed entry without comma that parses back to its attribute. */
  lemma TextsReparse(attributes: seq<Attribute>)
    requires forall i :: 0 <= i < |attributes| ==> Reparsable(attributes[i])
    ensures forall i :: 0 <= i < |attributes| ==>
      && Trimmed(Texts(attributes)[i]) && ',' !in Texts(attributes)[i]
      && ParseEntry(Texts(attributes)[i]) == Success(Some(attributes[i]))
  {
    forall i | 0 <= i < |attributes|
      ensures Trimmed(Texts(attributes)[i]) && ',' !in Texts(attributes)[i]
      ensures ParseEntry(Texts(attributes)[i]) == Success(Some(attributes[i]))
    {
      EntryTextShape(attributes[i]);
      ParseEntryRoundTrip(attributes[i]);
    }
  }

  /** The text of a reparsable attribute is trimmed and has no comma. */
  lemma EntryTextShape(a: Attribute)
    requires Reparsable(a)
    ensures Trimmed(AttributeText(a)) && ',' !in AttributeText(a)
  {
  }

  /** Entries that each parse to one attribute add exactly those attributes, in entry order. */
  lemma {:induction false} EntriesParse(entries: seq<string>, attributes: seq<Attribute>)
    requires |entries| == |attributes|
    requires forall i :: 0 <= i < |entries| ==> ParseEntry(entries[i]) == Success(Some(attributes[i]))
    ensures LineAttributes(entries) == Success(attributes)
    decreases |entries|
  {
    if entries != [] {
      var n := |entries| - 1;
      EntriesParse(entries[..n], attributes[..n]);
      LastSplit(attributes);
    }
  }

  lemma LastSplit(attributes: seq<Attribute>)
    requires attributes != []
    ensures attributes == attributes[..|attributes| - 1] + [attributes[|attributes| - 1]]
  {
  }
}
