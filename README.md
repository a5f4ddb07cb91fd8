# Onyx code generator core, modelled in Dafny

This project models the core of the Onyx code generator, a C# tool that reads C++ headers and a small component DSL and writes C++ glue code. The model covers the parts that decide what gets generated:

- **The type database** (`common/typedatabase.cs`):
  - a registry of parsed C++ types keyed by fully-qualified name, filled first-writer-wins;
  - `ResolveTypeName`, a namespace-scope name lookup;
  - `ResolveFullInhertiance`, which flattens every type's base classes into a resolved inheritance chain. It unwraps aliases, substitutes template arguments and shares one cache across the whole pass.
- **The queries on a type and its functions** (`common/type.cs`, `common/function.cs`): constructor and function lookup ordered by arity, parameter text, and `ReduceToConvertible`.
- **The string and path helpers:**
  - `TrimFullyQualifiedName`, in both of its copies;
  - `GetShortestRelativePath`.
- **The component DSL front end** (`Onyx.GodeGen.ComponentDSL/ComponentGenerator.cs`):
  - the line-by-line `Parse` state machine over attribute lines, `{ ... }` component blocks and `type name;` field lines;
  - the attribute lookup table;
  - the include ordering pipelines.
- **The `Field` accessors and the three property-grid editors:** the numerical editor and the two slider editors, which emit one line each.

Each source file has its own Dafny module:

| module | file |
|---|---|
| `Strings` | `strings.dfy` |
| `Functions` | `function.dfy` |
| `Types` | `type.dfy` |
| `Database` | `typedatabase.dfy` |
| `Attributes` | `attributes.dfy` |
| `Fields` | `field.dfy` |
| `Components` | `components.dfy` |
| `Editors` | `editors.dfy` |
| `Includes` | `includes.dfy` |
| `PathExtension` | `pathextension.dfy` |
| `StringExtensions` and `CoreStringExtensions` | `stringextensions.dfy` |

`Wrappers` holds `Option` and `Result`. `Strings` holds the .NET string operations the code uses: `Trim`, `Split`, `IndexOf`, `StartsWith` and ordinal comparison.

Where the C# code works step by step, the model is imperative, proved against a specification function:

- `TypeDatabase` is a class whose `Init` reassigns its `types` map.
- `ComponentGenerator.Parse` is a `while` loop over the lines.
- The editors' `Generate` methods build their option lists one entry at a time.
- `GetShortestRelativePath` and `TrimFullyQualifiedName` keep their `foreach` loops.

Pure LINQ pipelines are modelled as functions: `Where`, `OrderBy`, `GroupBy`, `Distinct`.

Where the C# code throws, the model returns a `Failure`. Cases:

- an out-of-range substring or index, except in `TrimFullyQualifiedName`, whose precondition `CanTrim` excludes that throw;
- an attribute class without a matching constructor;
- a `{` on the first line.

The resolver also returns a `Failure` when it re-enters a type that is still in progress, on a cyclic inheritance or alias graph. The C# code has no such check: there it may recurse without end, or it may return.

## Model

Some rows are case lemmas. Each states one branch of a definition and follows by unfolding it, so it documents that case rather than proving anything deep. They are:

- `Database.ResolveFullCached`, `ResolveFullCycle`, `ResolveAliasUnresolved`, `ResolveAliasCachesTarget`, `ResolvePlainCaches`, `BaseUnresolved`, `BaseFoundChain` and `BaseFoundTemplate`;
- `PathExtension.ShortestRelativePathEdges`;
- `Components.StepAttributes`, `StepOpen`, `StepField` and `StepKeeps`.

| member | source | states |
|---|---|---|
| Functions.ToStringWithoutName | common/function.cs:34-40 | the text is the optional "const ", the type name, an optional "&", then an optional "*", each at its position |
| Functions.ParameterToString | common/function.cs:25-32 | ToString is ToStringWithoutName followed by a space and the name, so dropping the trailing " name" gives ToStringWithoutName back |
| Functions.FunctionToString | common/function.cs:10-13 | the text is "Namespace::Name", then "( ", then the parameters' ToString texts joined by ", ", then " )", each part at its position |
| Functions.FunctionToStringParameters | common/function.cs:10-13 | the parameter list between "( " and " )", split at the commas and trimmed, gives back each parameter's text in order, when none holds a comma or surrounding white space |
| Functions.ReduceToConvertibleSpec | common/function.cs:50-60 | exactly one parameter per distinct type name, in first-occurrence order; the first non-const parameter of the group when there is one, else the group's first; every kept parameter comes from the input |
| Functions.ReduceFollowsFirstOccurrence | common/function.cs:52-59 | kept parameters appear in the order in which their type names first occur (GroupBy order) |
| Functions.ReduceKeepsChosen | common/function.cs:54-59 | each kept parameter is the choice for its type name, stated by position in the input |
| Functions.ReduceCoversTypeNames | common/function.cs:52-53 | every type name of the input has a kept parameter |
| Functions.PickFromGroup | common/function.cs:57-58 | picking from a group yields the first non-const parameter of that type name, else the first one |
| Functions.WithoutKeepsFirstOrder | common/function.cs:53 | removing one group keeps the first-occurrence order of the others |
| Types.OrderByArityIsStable | common/type.cs:29 | OrderBy on the parameter count is stable: functions of equal arity keep their declaration order |
| Types.InsertByArityKeepsSorted | common/type.cs:29 | inserting into an arity-sorted sequence keeps it sorted |
| Types.GetFunctionsSpec | common/type.cs:43-46 | exactly the functions named n, each as often as declared, in ascending arity, ties in declaration order |
| Types.GetConstructorsSpec | common/type.cs:27-30 | exactly the functions named like the type, each as often as declared, in ascending arity, stable |
| Types.GetConstructorsOrStaticCreateSpec | common/type.cs:32-41 | the constructors whenever one exists; otherwise exactly the static functions named "Create" (never a non-static one), by ascending arity, stable |
| Database.LookupOrder | common/typedatabase.cs:171-193 | the exact name wins, then ctx::name, then the first registered enclosing scope; the lookup misses exactly when no candidate is registered |
| Database.ScopeCandidatesWalkOutwards | common/typedatabase.cs:183-190 | the enclosing-scope candidates are prefixes of the context ending in "::" followed by the name, each shorter than the one before |
| Database.ScopeCandidatesSkipNone | common/typedatabase.cs:183-190 | the first candidate cuts the context at its last "::"; no "::" lies between one candidate's cut and the next, so no enclosing scope is skipped; the candidates end exactly when no "::" is left, and there are none when the context has no "::" |
| Database.TypeDatabase.ResolveTypeName | common/typedatabase.cs:171-193 | the while loop returns the type registered under the first registered candidate, or none |
| Database.NamespaceContext | common/typedatabase.cs:75-80 | the name up to its last "::" (no "::" follows it), or the whole name when it has none |
| Database.StripTemplate | common/typedatabase.cs:85-87 | a prefix of the name with no '<', the whole name when it has none |
| Database.ResolveFullCached | common/typedatabase.cs:68-71 | a cached type returns the cached chain, the type not looked at and the cache unchanged |
| Database.ResolveFullCycle | common/typedatabase.cs:63-169 | re-entering a type in progress that has no cached chain is reported as a cyclic-inheritance failure, whether or not the C# recursion would end there |
| Database.ResolveAliasUnresolved | common/typedatabase.cs:82-94 | an alias whose stripped target is not found resolves to just that name, and nothing is cached |
| Database.ResolveAliasCachesTarget | common/typedatabase.cs:89-97 | an alias with a found target resolves the target's bases in the alias's namespace context, and the chain is cached under the target's name, replacing any earlier entry |
| Database.ResolvePlainCaches | common/typedatabase.cs:99-167 | a non-alias type resolves its own bases and its chain is cached under its own name |
| Database.BaseUnresolved | common/typedatabase.cs:111-116 | a base that is not found is appended verbatim, with no recursion |
| Database.BaseFoundChain | common/typedatabase.cs:118-123 | a found base contributes its fully-qualified name plus the original `<...>` suffix, then its own chain |
| Database.BaseFoundTemplate | common/typedatabase.cs:125-161 | a found template deriving from one of its own parameters contributes its specialised name, then one entry per position of its bases, with the comma-split arguments, and not its own chain |
| Database.ResolveBasesStep | common/typedatabase.cs:100-165 | the chain grows base by base, in declaration order |
| Database.TemplatePositionsStep | common/typedatabase.cs:132-158 | the substituted chain grows position by position over the template's bases |
| Database.ResolveBasesFailureSticks | common/typedatabase.cs:100-165 | once a base fails, the later bases are not looked at |
| Database.TemplatePositionsFailureSticks | common/typedatabase.cs:132-158 | once a template position fails, the later positions are not looked at |
| Database.TypeDatabase.ResolveFullInheritance | common/typedatabase.cs:63-169 | the method returns what ResolveFull specifies, which the lemmas above characterise case by case |
| Database.TypeDatabase.ResolveBaseList | common/typedatabase.cs:100-165 | the loop over the declared bases computes ResolveBases over all of them |
| Database.TypeDatabase.ResolveBase | common/typedatabase.cs:102-164 | one iteration of the bases loop computes BaseStep |
| Database.TypeDatabase.ResolveFoundBase | common/typedatabase.cs:118-164 | the found-base part of one iteration computes BaseFound |
| Database.TypeDatabase.ResolveTemplateBases | common/typedatabase.cs:131-158 | the loop over the template's bases computes TemplatePositions |
| Database.TypeDatabase.ResolveTemplatePosition | common/typedatabase.cs:134-157 | a parameter position takes the argument at the same index in the base list (failing past the last argument); any other position resolves the base as written |
| Database.TypeDatabase.ResolveNamedBase | common/typedatabase.cs:136-156 | a name not found is appended verbatim; a found one gives its fully-qualified name and then its chain |
| Database.Register | common/typedatabase.cs:26-34 | registration keeps every entry under its own fully-qualified name |
| Database.RegisterFirstWriterWins | common/typedatabase.cs:26-34 | an already registered name keeps its type; a new name gets the first parsed type carrying it; later duplicates are skipped |
| Database.RegisterKeys | common/typedatabase.cs:26-34 | the registered names are the old ones and those of the parsed types, and no others |
| Database.ResolvePassRewritesAll | common/typedatabase.cs:40-45 | after a pass that does not fail, every registered type has as bases the chain its own step computed, and every other part of the type is unchanged |
| Database.ResolvePassRewritesVisited | common/typedatabase.cs:41-45 | a visited name holds the chain its own step computed, and later steps never rewrite it |
| Database.ResolvePassLeavesUnvisited | common/typedatabase.cs:41-45 | a name not yet visited has no recorded chain |
| Database.ResolvePassFailureSticks | common/typedatabase.cs:41-45 | once a step fails, the pass stops there |
| Database.RewrittenKeepsKeys | common/typedatabase.cs:40-45 | the resolve pass adds and removes no type |
| Database.TypeDatabase.constructor | common/typedatabase.cs:7-8 | the registry and the global functions start empty |
| Database.TypeDatabase.Init | common/typedatabase.cs:12-46 | the registry becomes the first-writer-wins registration with every type's bases rewritten by the resolve pass in enumeration order; the global functions are appended |
| Database.TypeDatabase.GetTypes | common/typedatabase.cs:48-51 | exactly the registered types |
| Database.TypeDatabase.GetDerivedTypes | common/typedatabase.cs:53-56 | exactly the registered types whose bases contain the name |
| Database.TypeDatabase.GetTypesDerivedFromTemplate | common/typedatabase.cs:58-61 | exactly the registered types with some base starting with `name<` |
| StringExtensions.TrimmedNameStripsMatchedPrefix | common/stringextensions.cs:7-18 | namespaces are consumed in stack order while each is a prefix of what is left; the result drops the length of each matched namespace plus 2 |
| StringExtensions.TrimmedNameUnchangedOnFirstMiss | common/stringextensions.cs:7-17 | an empty stack, or a first namespace that is not a prefix, leaves the name unchanged |
| StringExtensions.TrimmedNameIsSuffix | common/stringextensions.cs:12 | the result is always a suffix of the input |
| StringExtensions.TrimFullyQualifiedName | common/stringextensions.cs:5-21 | the foreach loop computes TrimmedName; callers must leave room for the "::" that each Substring skips |
| CoreStringExtensions.TrimFullyQualifiedName | Onyx.CodeGen.Core/stringextensions.cs:5-21 | the copy computes the same TrimmedName as the common one, for all inputs |
| PathExtension.GetShortestRelativePath | Onyx.CodeGen.Core/pathextension.cs:9-45 | the loop computes ShortestRelativePath |
| PathExtension.ShortestRelativePathEdges | Onyx.CodeGen.Core/pathextension.cs:11-15 | a null target gives ""; no include directories give the target unchanged |
| PathExtension.ShortestIsACandidate | Onyx.CodeGen.Core/pathextension.cs:19-40 | a path is kept exactly when some directory is accepted; the kept path is an accepted directory's: never from a blank directory, a failed call or a path starting with ".." |
| PathExtension.ShortestIsShortestEarliest | Onyx.CodeGen.Core/pathextension.cs:39-40 | the kept path is the shortest accepted one, and among the shortest the earliest |
| PathExtension.ShortestRelativePathResult | Onyx.CodeGen.Core/pathextension.cs:43-44 | the result is the kept path, or the target when none is kept, with '\\' replaced by '/' and every other character kept |
| Attributes.FindKind | Onyx.GodeGen.ComponentDSL/ComponentGenerator.cs:408-414 | the first table row whose name equals the given one ignoring case; none exactly when no row matches |
| Attributes.LookupKindSpec | Onyx.GodeGen.ComponentDSL/ComponentGenerator.cs:408-414 | the lookup finds a class exactly when its registered name equals the entry name ignoring case; the registered names are distinct ignoring case |
| Attributes.LookupOwnName | Onyx.GodeGen.ComponentDSL/ComponentGenerator.cs:408-414 | each registered class is found by its own name |
| Attributes.Build | Onyx.GodeGen.ComponentDSL/ComponentGenerator.cs:416-428 | without a parameter only the classes with a parameterless constructor build; with one only Editor, Min, Max and Name; Range never builds; the result has the class looked up and holds the parameter text the constructor was given |
| Attributes.WrittenCallText | Onyx.GodeGen.ComponentDSL/attributes/Editor.cs:9 | the ToString text of Editor, Min and Max is the class name followed by the parameter in parentheses |
| Attributes.WrittenBareText | Onyx.GodeGen.ComponentDSL/attributes/Attribute.cs:20-40 | the ToString text of ReadOnly, Transient and Hidden is the class name, and the class builds back without a parameter |
| Attributes.WrittenNameFound | Onyx.GodeGen.ComponentDSL/ComponentGenerator.cs:408-414 | the class name a ToString text starts with finds that class |
| Components.ParseEntry | Onyx.GodeGen.ComponentDSL/ComponentGenerator.cs:398-433 | an added attribute has the class its name looks up, and never Range, RuntimeOnly or Unit; an unknown name adds nothing, and fails only where the parameter slice throws first (a reversed range or a lone quote); the entry fails on a reversed parameter range exactly when it has a '(' and its first ')' comes before that '(' or it has no ')' at all |
| Components.RangeNeverBuilds | Onyx.GodeGen.ComponentDSL/attributes/Range.cs:9-13 | an entry that names Range always fails, since Range has no public constructor |
| Components.RangeSplitByComma | Onyx.GodeGen.ComponentDSL/ComponentGenerator.cs:393-401 | the line `[Range(lo, hi)]` is its own trim and an attribute line whose entries are `Range(lo` and `hi)`; the first has no ')', so the whole line fails there on a reversed parameter range |
| Components.ParseNameEntry | Onyx.GodeGen.ComponentDSL/ComponentGenerator.cs:398-433 | an entry `Name("v")` with a non-empty v free of `)` adds a Name attribute whose value is v without its quotes |
| Components.ParseEntryRoundTrip | Onyx.GodeGen.ComponentDSL/ComponentGenerator.cs:398-433 | an entry written as a reparsable attribute's ToString text parses back to that attribute |
| Components.AttributeLineRoundTrip | Onyx.GodeGen.ComponentDSL/ComponentGenerator.cs:392-438 | a line of reparsable attributes' texts in brackets, separated by ", ", is an attribute line whose entries add exactly those attributes, in order |
| Components.EntriesParse | Onyx.GodeGen.ComponentDSL/ComponentGenerator.cs:396-435 | entries that each parse to one attribute add exactly those attributes, in entry order |
| Components.LineAttributesFailsFrom | Onyx.GodeGen.ComponentDSL/ComponentGenerator.cs:396-435 | the first failing entry fails the whole line, whatever follows it |
| Components.ReadAttributeLine | Onyx.GodeGen.ComponentDSL/ComponentGenerator.cs:395-435 | the foreach over the entries adds what LineAttributes specifies, or stops at the first failing entry |
| Components.ComponentGenerator.constructor | Onyx.GodeGen.ComponentDSL/ComponentGenerator.cs:30-51 | the generator keeps the type database and namespace stack it is given |
| Components.ComponentGenerator.Parse | Onyx.GodeGen.ComponentDSL/ComponentGenerator.cs:380-490 | the for loop over the lines returns the components ParseComponents specifies, or the first exception |
| Components.ComponentGenerator.ReadLine | Onyx.GodeGen.ComponentDSL/ComponentGenerator.cs:392-486 | one iteration of the loop computes ParseLine: attribute line, `{` opening, `}` closing, lines outside a block ignored, field lines |
| Components.ParseLine | Onyx.GodeGen.ComponentDSL/ComponentGenerator.cs:440-486 | every line keeps a component to add fields to while inside a block |
| Components.StepAttributes | Onyx.GodeGen.ComponentDSL/ComponentGenerator.cs:393-437 | an attribute line only appends the attributes it writes to the pending ones |
| Components.StepOpen | Onyx.GodeGen.ComponentDSL/ComponentGenerator.cs:440-454 | a `{` outside a block opens a component named by the trimmed previous line, as namespace::name, taking and clearing the pending attributes |
| Components.StepField | Onyx.GodeGen.ComponentDSL/ComponentGenerator.cs:468-486 | a `type name` line inside a block appends a field (type parts[0], name parts[1]) to the last component, taking and clearing the pending attributes |
| Components.StepKeeps | Onyx.GodeGen.ComponentDSL/ComponentGenerator.cs:457-472 | a `}`, a line outside a block or a blank line in a block keeps the components and the pending attributes; a `}` inside a block closes it, and every other such line leaves the block flag unchanged |
| Components.OpenOnFirstLine | Onyx.GodeGen.ComponentDSL/ComponentGenerator.cs:440-443 | a `{` on the first line has no line before it to name the component: Parse throws there |
| Components.ParseFailsFrom | Onyx.GodeGen.ComponentDSL/ComponentGenerator.cs:390-487 | once a line throws, Parse throws there whatever lines follow |
| Components.ParseWellFormed | Onyx.GodeGen.ComponentDSL/ComponentGenerator.cs:440-486 | every component is named namespace::name; every field's type is what the database resolves its type name to, and both of its names are single trimmed tokens |
| Components.ParsedFieldTypeName | Onyx.GodeGen.ComponentDSL/Field.cs:11 | a parsed field's TypeName is the fully-qualified name its written type resolves to, else the name as written |
| Components.ParseInFileOrder | Onyx.GodeGen.ComponentDSL/ComponentGenerator.cs:440-489 | what the first m lines produce is kept, in place, by every later line: components in the order of their `{` lines, fields in line order |
| Components.AttributesConserved | Onyx.GodeGen.ComponentDSL/ComponentGenerator.cs:448-485 | the attributes attached to components and fields, in file order, followed by those still pending, are exactly the attributes the lines wrote: none lost, none attached twice |
| Fields.GetAttribute | Onyx.GodeGen.ComponentDSL/Field.cs:26-29 | the first attribute of the class in list order, none exactly when the field has no attribute of that class |
| Fields.DisplayNameSpec | Onyx.GodeGen.ComponentDSL/Field.cs:19 | the value of the earliest Name attribute, else the field's name |
| Fields.FlagsSpec | Onyx.GodeGen.ComponentDSL/Field.cs:15-17 | IsReadOnly, IsHidden and IsRuntimeOnly hold exactly when the field carries that marker |
| Fields.GetAttributePrefix | Onyx.GodeGen.ComponentDSL/Field.cs:28 | GetAttribute looks no further than the first attribute of its class |
| Editors.EffectiveMinSpec | Onyx.GodeGen.ComponentDSL/editors/NumericalEditor.cs:53-64 | the lower bound is the earliest Min's value, else the earliest Range's low end, and is unset exactly when there is neither |
| Editors.EffectiveMaxSpec | Onyx.GodeGen.ComponentDSL/editors/NumericalEditor.cs:53-69 | the upper bound is the earliest Max's value, else the earliest Range's high end, and is unset exactly when there is neither |
| Editors.BoundOptionsSpec | Onyx.GodeGen.ComponentDSL/editors/NumericalEditor.cs:71-80 | `.Min = v` is present exactly when the lower bound is set and `.Max = v` exactly when the upper one is, Min first |
| Editors.NumericalLineSpec | Onyx.GodeGen.ComponentDSL/editors/NumericalEditor.cs:82-89 | the two-argument call exactly when there are no bound options, the braced call otherwise; the label is the display name and the variable the field's name |
| Editors.SliderLinesSpec | Onyx.CodeGen.ComponentDSL/editors/SliderEditor.cs:43-61 | both sliders always emit the braced call ending in `.IsSlider = true`; a Unit attribute adds `.Unit` and `.DisplayUnit` between the bounds and that option; without one the two sliders emit the same line |
| Editors.ReadBounds | Onyx.GodeGen.ComponentDSL/editors/NumericalEditor.cs:53-69 | the min and max locals are EffectiveMin and EffectiveMax |
| Editors.AddBounds | Onyx.GodeGen.ComponentDSL/editors/NumericalEditor.cs:71-80 | the options list holds BoundOptions |
| Editors.GenerateNumerical | Onyx.GodeGen.ComponentDSL/editors/NumericalEditor.cs:51-90 | NumericalEditor.Generate emits NumericalLine |
| Editors.GenerateSlider | Onyx.GodeGen.ComponentDSL/editors/SliderEditor.cs:23-56 | SliderEditor.Generate (no units) emits SliderLine |
| Editors.GenerateSliderWithUnit | Onyx.CodeGen.ComponentDSL/editors/SliderEditor.cs:23-62 | SliderEditor.Generate with units emits SliderUnitLine |
| Includes.Distinct | Onyx.GodeGen.ComponentDSL/ComponentGenerator.cs:77 | no duplicates, and exactly the input's elements |
| Includes.SortIncludesSorted | Onyx.GodeGen.ComponentDSL/ComponentGenerator.cs:78-79 | ordered by the number of '/' and '\\', then by the text |
| Includes.SortedDistinct | Onyx.GodeGen.ComponentDSL/ComponentGenerator.cs:77-79 | deduplicated then sorted: each input path exactly once, in strict depth-then-text order |
| Includes.IncludeLessTotal | Onyx.GodeGen.ComponentDSL/ComponentGenerator.cs:78-79 | the depth-then-text key orders any two different paths |
| Includes.IncludeLineInjective | Onyx.GodeGen.ComponentDSL/ComponentGenerator.cs:80 | the `#include <path>` line determines its path |
| Includes.ExternalIncludePathsSpec | Onyx.GodeGen.ComponentDSL/ComponentGenerator.cs:144-146 | a path is collected exactly when some field's type is resolved, outside onyx/modules/core, and has it as include path |
| Includes.HeaderIncludesSpec | Onyx.GodeGen.ComponentDSL/ComponentGenerator.cs:144-150 | the header names each such include path exactly once and no other, in strict depth-then-text order |
| Includes.SourceIncludesSpec | Onyx.GodeGen.ComponentDSL/ComponentGenerator.cs:76-80 | the source file names the component and editor includes together, each once, in strict depth-then-text order; the Distinct after Union changes nothing |

## Left out

- Concurrency in `Init`: `Parallel.ForEach` over the sources and the concurrent dictionary and bag become a sequential fold over the parsed types, taken in the order given. Scheduling nondeterminism is not modelled. With several workers, which of two types with the same name wins is decided by timing; here it is the first in the sequence.
- The C++ parser (`CppParser`, tree-sitter) is not part of this model. `Init` takes the parsed types and global functions as parameters.
- Database.TypeDatabase.Init: the `globalFunctions.Distinct()` rebuild is not modelled. The global functions are only appended, and no query of the core reads them.
- The enumeration order of `types.Values` in the resolve pass is unspecified in .NET, so it is a parameter (`order`), required to list every registered name once.
- Database.ResolveFull: the C# recursion has no cycle guard. The model carries the set of types in progress and reports re-entering one as `CyclicInheritance`. On a cyclic name graph the C# code may recurse without end, but it may also return. An alias caches its chain under its target's name, so a type re-entered through an alias can find a chain that a call further in has cached. On cyclic graphs the model therefore promises only a failure, where the C# code may succeed.
- `Path.GetRelativePath` is a library call. It is a parameter of `GetShortestRelativePath`, with `None` standing for a call that throws.
- The reflection scan (`ANNOTATION_ATTRIBUTES`, `GetCustomAttribute<Name>`, `Activator.CreateInstance`, `Convert.ChangeType`) is replaced by an explicit table of the classes the scan finds and by the constructors they declare. `Convert.ChangeType` to `object` or `string` keeps the text, so attribute values are strings.
- Attributes.FindKind: `OrdinalIgnoreCase` is modelled as ASCII upper-casing. Non-ASCII case folding is left out.
- `ThenBy(s => s)` uses the culture-sensitive default comparer in .NET. It is modelled as ordinal comparison.
- `StartsWith(string)` and `LastIndexOf(string)` compare with the current culture in .NET. Examples are `typeName.StartsWith(namespaceIdentifier)` (common/stringextensions.cs:9), the directory test of `GetShortestRelativePath` (Onyx.CodeGen.Core/pathextension.cs:36), `StartsWith($"{templateBaseClass}<")` (common/typedatabase.cs:60) and `LastIndexOf("::")` (common/typedatabase.cs:75 and 183). All of them are modelled as ordinal: prefix and character comparison. Culture rules that ignore or combine characters are left out.
- StringExtensions.TrimFullyQualifiedName: the `ArgumentOutOfRangeException` of `Substring` when a matched namespace leaves no room for "::" is not modelled as a `Failure`. The precondition `CanTrim` excludes it, and `CoreStringExtensions.TrimFullyQualifiedName` shares that precondition.
- Components.ComponentGenerator.Parse: the C# parser resolves field types with `Onyx.CodeGen.Core.TypeDatabase.ResolveTypeName` (ComponentGenerator.cs:21, 30 and 475). That class is not part of this model. The model uses the lookup of the `common` type database (`Database.Lookup`, common/typedatabase.cs:171-193) in its place. `ParseWellFormed` and `ParsedFieldTypeName` state field types in terms of that lookup. Any difference in the Core lookup is not captured: a different candidate order, an unqualified fallback that matches by simple name, or a different answer when that match is ambiguous.
- Code emission and file I/O are not modelled: `Generate`, `GenerateComponentHeader`, the other `Generate*` methods, `CodeGenerator` and `File.WriteAllText`. The editors return the one line they append.
- `File.ReadAllLines` in `Parse` is replaced by the lines as a parameter.
- `ComponentGenerator`'s constructor keeps only the type database and the namespace stack. The path parameters serve only the left-out emission.
- `Field.DefaultValue` is never set by `Parse`. It is `""` here where the C# value is `null`.
- `Attribute.ToString` of `Name` (`Name: "v"`) and `Range` (`Range(lo, hi)`) do not read back as themselves. `Components.Reparsable` excludes them, and `Components.RangeSplitByComma` shows what happens to `Range`.
- Fields.FlagsSpec: `Field.cs` (Onyx.GodeGen.ComponentDSL/Field.cs:15-17) tests the classes `RuntimeOnlyAttribute`, `ReadOnlyAttribute` and `HiddenAttribute`. These are defined only in the newer project (Onyx.CodeGen.ComponentDSL/attributes/Attribute.cs:20-42). The `Parse` of the same project builds the classes `ReadOnly` and `Hidden` (Onyx.GodeGen.ComponentDSL/attributes/Attribute.cs:20-40) instead. The model treats each such pair as one `Kind`, so a parsed `ReadOnly` sets `IsReadOnly`. As written, the two projects do not type-check together as one program.
- Fields.DisplayNameSpec: `DisplayName` reads `NameAttribute` (Onyx.GodeGen.ComponentDSL/Field.cs:19). No project defines that class. The model identifies it with the `Name` class that `Parse` builds (Onyx.GodeGen.ComponentDSL/attributes/Name.cs:4), and the editors' labels depend on that identification.
- The `RuntimeOnly` and `Unit` attribute classes belong to the newer project. Its reflection table is not part of this model, so they appear only as values the editors and `Field` read.
- Several methods split a C# loop body into its own method, only to keep each proof small:
  - `Components.ComponentGenerator.ReadLine`;
  - `Components.ReadAttributeLine`;
  - `Database.TypeDatabase.ResolveBase`, `ResolveFoundBase`, `ResolveTemplatePosition` and `ResolveNamedBase`.

  The statements are those of the C# loop, in the same order.
- The `ResolveTypeName` call for a field whose line has a single token happens before the `parts[1]` exception in C#. The model performs it too, but it has no effect.
- PathExtension.ShortestIsShortestEarliest: stated only when no accepted directory yields an empty relative path. The loop treats a kept empty path like no path (`IsNullOrEmpty`), so a later, longer path replaces it. `PathExtension.ShortestIsACandidate` covers that case.
