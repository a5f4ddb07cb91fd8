/**
 * The annotation attributes of the component DSL (Onyx.GodeGen.ComponentDSL/
 * attributes and, for RuntimeOnly and Unit, Onyx.CodeGen.ComponentDSL/
 * attributes), the registration table that replaces the reflection scan of
 * ComponentGenerator.Parse, and how Parse constructs an attribute from its
 * parameter text.
 */
module Attributes {
  import opened Wrappers
  import opened Strings

  /**
   * One attribute instance. Values the C# code types as `object` are the
   * parameter text Parse passed in; Plain is the base class `Attribute`,
   * which the table also reaches by its own name.
   */
  datatype Attribute =
    | Plain
    | ReadOnly
    | Transient
    | Hidden
    | RuntimeOnly
    | Editor(editor: string)
    | Min(min: string)
    | Max(max: string)
    | Name(name: string)
    | Range(low: string, high: string)
    | Unit(unit: string, displayUnit: string)

  /** The class of an attribute: what `attribute is T` tests. */
  datatype Kind =
    | PlainKind | ReadOnlyKind | TransientKind | HiddenKind | RuntimeOnlyKind
    | EditorKind | MinKind | MaxKind | NameKind | RangeKind | UnitKind

  function KindOf(a: Attribute): Kind
  {
    match a
    case Plain => PlainKind
    case ReadOnly => ReadOnlyKind
    case Transient => TransientKind
    case Hidden => HiddenKind
    case RuntimeOnly => RuntimeOnlyKind
    case Editor(_) => EditorKind
    case Min(_) => MinKind
    case Max(_) => MaxKind
    case Name(_) => NameKind
    case Range(_, _) => RangeKind
    case Unit(_, _) => UnitKind
  }

  /**
   * The classes Parse can find, each with the name it is found by (its
   * [Name] value, else its class name). RuntimeOnly and Unit belong to the
   * other project and are not in this table.
   */
  const Registered: seq<(string, Kind)> := [
    ("Attribute", PlainKind), ("ReadOnly", ReadOnlyKind), ("Transient", TransientKind),
    ("Hidden", HiddenKind), ("Editor", EditorKind), ("Max", MaxKind), ("Min", MinKind),
    ("Name", NameKind), ("Range", RangeKind)]

  /** The first registered class whose name equals `name` ignoring case. */
  function FindKind(table: seq<(string, Kind)>, name: string): (r: Option<Kind>)
    ensures r.None? <==> forall i :: 0 <= i < |table| ==> !EqualsIgnoreCase(table[i].0, name)
    ensures r.Some? ==> exists i :: 0 <= i < |table| && table[i].1 == r.value && EqualsIgnoreCase(table[i].0, name)
  {
    if table == [] then None
    else if EqualsIgnoreCase(table[0].0, name) then Some(table[0].1)
    else
      var r := FindKind(table[1..], name);
      assert forall i :: 1 <= i < |table| ==> table[i] == table[1..][i - 1];
      r
  }

  /** The attribute class Parse finds for a name, if any. */
  function LookupKind(name: string): (r: Option<Kind>)
    ensures r.Some? ==> r.value in {PlainKind, ReadOnlyKind, TransientKind, HiddenKind, EditorKind, MaxKind, MinKind, NameKind, RangeKind}
  {
    FindKind(Registered, name)
  }

  /** The registered names differ even ignoring case, so the lookup finds the class named so and no other. */
  lemma LookupKindSpec(name: string, k: Kind)
    ensures LookupKind(name) == Some(k) <==> exists i :: 0 <= i < |Registered| && Registered[i].1 == k && EqualsIgnoreCase(Registered[i].0, name)
  {
    if LookupKind(name) == Some(k) {
    } else if exists i :: 0 <= i < |Registered| && Registered[i].1 == k && EqualsIgnoreCase(Registered[i].0, name) {
      var i :| 0 <= i < |Registered| && Registered[i].1 == k && EqualsIgnoreCase(Registered[i].0, name);
      var j :| 0 <= j < |Registered| && Registered[j].1 == LookupKind(name).value && EqualsIgnoreCase(Registered[j].0, name);
      RegisteredNamesDistinct(i, j, name);
    }
  }

  /** Each registered class is found by its own name. */
  lemma LookupOwnName(i: nat)
    requires i < |Registered|
    ensures LookupKind(Registered[i].0) == Some(Registered[i].1)
  {
    LookupKindSpec(Registered[i].0, Registered[i].1);
  }

  /** The name `Name` finds the Name class; it holds no parenthesis. */
  lemma LookupName()
    ensures LookupKind("Name") == Some(NameKind) && '(' !in "Name" && ')' !in "Name"
  {
    assert Registered[7] == ("Name", NameKind);
    LookupOwnName(7);
    NameLetters();
  }

  /** The letters of `Name`. */
  lemma NameLetters()
    ensures forall c :: c in "Name" ==> c == 'N' || c == 'a' || c == 'm' || c == 'e'
  {
  }

  /** Two table rows whose names both equal one name ignoring case are the same row. */
  lemma RegisteredNamesDistinct(i: nat, j: nat, name: string)
    requires i < |Registered| && j < |Registered|
    requires EqualsIgnoreCase(Registered[i].0, name) && EqualsIgnoreCase(Registered[j].0, name)
    ensures i == j
  {
    if i != j {
      DistinctRows(i, j, name);
    }
  }

  /** No name equals the names of two different rows ignoring case. */
  lemma DistinctRows(i: nat, j: nat, name: string)
    requires i < |Registered| && j < |Registered| && i != j
    ensures !(EqualsIgnoreCase(Registered[i].0, name) && EqualsIgnoreCase(Registered[j].0, name))
  {
    var a := Registered[i].0;
    var b := Registered[j].0;
    if |a| == |b| {
      var p := if |a| == 3 then 1 else 0;
      assert UpperAscii(a[p]) != UpperAscii(b[p]);
    }
  }

  /** The parameter text an attribute's constructor stored; "" for the classes built without one. */
  function ParameterOf(a: Attribute): string
  {
    match a
    case Editor(v) => v
    case Min(v) => v
    case Max(v) => v
    case Name(v) => v
    case _ => ""
  }

  /** Why building an attribute throws in the C# code. */
  datatype BuildError =
    | NoParameterlessConstructor(kind: Kind)
    | ConstructorTakesNoArgument(kind: Kind)
    | NoPublicConstructor(kind: Kind)

  /**
   * The instance Parse builds for a found class: without a parameter the
   * parameterless constructor (which Editor, Min, Max and Name lack);
   * with one, the first public constructor given the parameter text (the
   * marker classes' only constructor takes none; Range has no public one).
   */
  function Build(k: Kind, parameter: string): (r: Result<Attribute, BuildError>)
    requires k in {PlainKind, ReadOnlyKind, TransientKind, HiddenKind, EditorKind, MaxKind, MinKind, NameKind, RangeKind}
    ensures r.Success? ==> KindOf(r.value) == k
    ensures r.Success? ==> ParameterOf(r.value) == parameter
    ensures r.Success? <==> if parameter == "" then k in {PlainKind, ReadOnlyKind, TransientKind, HiddenKind}
                                               else k in {EditorKind, MaxKind, MinKind, NameKind}
  {
    if k == RangeKind then Failure(NoPublicConstructor(k))
    else if parameter == "" then
      match k
      case PlainKind => Success(Plain)
      case ReadOnlyKind => Success(ReadOnly)
      case TransientKind => Success(Transient)
      case HiddenKind => Success(Hidden)
      case _ => Failure(NoParameterlessConstructor(k))
    else
      match k
      case EditorKind => Success(Editor(parameter))
      case MinKind => Success(Min(parameter))
      case MaxKind => Success(Max(parameter))
      case NameKind => Success(Name(parameter))
      case _ => Failure(ConstructorTakesNoArgument(k))
  }

  /** Attribute.ToString of the classes of this project, as the header comment lists them. */
  function AttributeText(a: Attribute): string
  {
    match a
    case Plain => "Onyx.CodeGen.ComponentDSL.Attribute"
    case ReadOnly => "ReadOnly"
    case Transient => "Transient"
    case Hidden => "Hidden"
    case RuntimeOnly => "RuntimeOnly"
    case Editor(v) => "Editor(\"" + v + "\")"
    case Min(v) => "Min(" + v + ")"
    case Max(v) => "Max(" + v + ")"
    case Name(v) => "Name: \"" + v + "\""
    case Range(lo, hi) => "Range(" + lo + ", " + hi + ")"
    case Unit(_, _) => "Onyx.CodeGen.ComponentDSL.UnitAttribute"
  }

  /** The attributes whose ToString text is their class name, followed by a parameter in parentheses for Editor, Min and Max. */
  predicate Written(a: Attribute)
  {
    a.ReadOnly? || a.Transient? || a.Hidden? || a.Editor? || a.Min? || a.Max?
  }

  /** The class name a written attribute's ToString text starts with. */
  function WrittenName(a: Attribute): string
    requires Written(a)
  {
    match a
    case ReadOnly => "ReadOnly"
    case Transient => "Transient"
    case Hidden => "Hidden"
    case Editor(_) => "Editor"
    case Min(_) => "Min"
    case Max(_) => "Max"
  }

  /** The text between the parentheses of a written attribute's ToString text. */
  function WrittenParameter(a: Attribute): string
    requires a.Editor? || a.Min? || a.Max?
  {
    match a
    case Editor(v) => "\"" + v + "\""
    case Min(v) => v
    case Max(v) => v
  }

  /** The ToString text of Editor, Min and Max is the class name, then the parameter in parentheses. */
  lemma WrittenCallText(a: Attribute)
    requires a.Editor? || a.Min? || a.Max?
    ensures AttributeText(a) == WrittenName(a) + "(" + WrittenParameter(a) + ")"
  {
  }

  /** The ToString text of a marker attribute is its class name. */
  lemma WrittenBareText(a: Attribute)
    requires a.ReadOnly? || a.Transient? || a.Hidden?
    ensures AttributeText(a) == WrittenName(a)
    ensures Build(KindOf(a), "") == Success(a)
  {
  }

  /** A class name holds no parenthesis. */
  lemma WrittenNameBare(a: Attribute)
    requires Written(a)
    ensures '(' !in WrittenName(a) && ')' !in WrittenName(a)
  {
  }

  /** Parse finds the class of a written attribute by the name its ToString text starts with. */
  lemma WrittenNameFound(a: Attribute)
    requires Written(a)
    ensures LookupKind(WrittenName(a)) == Some(KindOf(a))
  {
    match a {
      case ReadOnly => LookupReadOnly();
      case Transient => LookupTransient();
      case Hidden => LookupHidden();
      case Editor(_) => LookupEditor();
      case Max(_) => LookupMax();
      case Min(_) => LookupMin();
    }
  }

  // Parse finds each registered class by its own name.

  lemma LookupReadOnly()
    ensures LookupKind("ReadOnly") == Some(ReadOnlyKind)
  {
    LookupOwnName(1);
  }

  lemma LookupTransient()
    ensures LookupKind("Transient") == Some(TransientKind)
  {
    LookupOwnName(2);
  }

  lemma LookupHidden()
    ensures LookupKind("Hidden") == Some(HiddenKind)
  {
    LookupOwnName(3);
  }

  lemma LookupEditor()
    ensures LookupKind("Editor") == Some(EditorKind)
  {
    LookupOwnName(4);
  }

  lemma LookupMax()
    ensures LookupKind("Max") == Some(MaxKind)
  {
    LookupOwnName(5);
  }

  lemma LookupMin()
    ensures LookupKind("Min") == Some(MinKind)
  {
    LookupOwnName(6);
  }
}
