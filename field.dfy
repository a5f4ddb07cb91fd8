/**
 * A field of a DSL component (Onyx.GodeGen.ComponentDSL/Field.cs): its name,
 * the C++ type the database resolved for it (if any), the type name as
 * written, and the attributes annotated on it.
 */
module Fields {
  import opened Wrappers
  import opened Types
  import opened Attributes

  /** DefaultValue is never set by Parse; it is "" here where the C# value is null. */
  datatype Field = Field(
    Name: string,
    Type: Option<Type>,
    DefaultValue: string,
    Attributes: seq<Attribute>,
    FallbackTypeName: string)

  /** Field.TypeName: the resolved type's fully-qualified name, else the name as written. */
  function TypeName(f: Field): string
  {
    match f.Type
    case Some(t) => t.FullyQualifiedName
    case None => f.FallbackTypeName
  }

  /** `Attributes.Any(a => a is T)`. */
  predicate HasAttribute(attributes: seq<Attribute>, k: Kind)
  {
    exists i :: 0 <= i < |attributes| && KindOf(attributes[i]) == k
  }

  /** `Attributes.FirstOrDefault(a => a is T)`: the first attribute of class `k`, in list order. */
  function GetAttribute(attributes: seq<Attribute>, k: Kind): (r: Option<Attribute>)
    ensures r.Some? <==> HasAttribute(attributes, k)
    ensures r.Some? ==> KindOf(r.value) == k
    ensures r.Some? ==> exists i :: 0 <= i < |attributes| && attributes[i] == r.value && KindOf(r.value) == k
                                    && forall j :: 0 <= j < i ==> KindOf(attributes[j]) != k
  {
    if attributes == [] then None
    else if KindOf(attributes[0]) == k then Some(attributes[0])
    else
      var r := GetAttribute(attributes[1..], k);
      assert forall i :: 1 <= i < |attributes| ==> attributes[i] == attributes[1..][i - 1];
      r
  }

  /** Field.IsRuntimeOnly. */
  predicate IsRuntimeOnly(f: Field)
  {
    HasAttribute(f.Attributes, RuntimeOnlyKind)
  }

  /** Field.IsReadOnly. */
  predicate IsReadOnly(f: Field)
  {
    HasAttribute(f.Attributes, ReadOnlyKind)
  }

  /** Field.IsHidden. */
  predicate IsHidden(f: Field)
  {
    HasAttribute(f.Attributes, HiddenKind)
  }

  /** Field.DisplayName: the value of the first Name attribute, else the field's own name. */
  function DisplayName(f: Field): string
  {
    match GetAttribute(f.Attributes, NameKind)
    case Some(Name(v)) => v
    case _ => f.Name
  }

  /**
   * The display name is the value of the earliest Name attribute when there
   * is one, and the field's name exactly when there is none.
   */
  lemma DisplayNameSpec(f: Field)
    ensures !HasAttribute(f.Attributes, NameKind) ==> DisplayName(f) == f.Name
    ensures HasAttribute(f.Attributes, NameKind) ==>
      exists i :: 0 <= i < |f.Attributes| && f.Attributes[i] == Name(DisplayName(f))
                  && forall j :: 0 <= j < i ==> !f.Attributes[j].Name?
  {
    var g := GetAttribute(f.Attributes, NameKind);
    if g.Some? {
      var i :| 0 <= i < |f.Attributes| && f.Attributes[i] == g.value && KindOf(g.value) == NameKind
               && forall j :: 0 <= j < i ==> KindOf(f.Attributes[j]) != NameKind;
      assert f.Attributes[i] == Name(DisplayName(f));
    }
  }

  /** For the marker classes, having an attribute of the class is containing the one instance of it. */
  lemma FlagsSpec(f: Field)
    ensures IsReadOnly(f) <==> ReadOnly in f.Attributes
    ensures IsHidden(f) <==> Hidden in f.Attributes
    ensures IsRuntimeOnly(f) <==> RuntimeOnly in f.Attributes
    ensures IsReadOnly(f) ==> GetAttribute(f.Attributes, ReadOnlyKind) == Some(ReadOnly)
    ensures IsHidden(f) ==> GetAttribute(f.Attributes, HiddenKind) == Some(Hidden)
    ensures IsRuntimeOnly(f) ==> GetAttribute(f.Attributes, RuntimeOnlyKind) == Some(RuntimeOnly)
  {
    assert forall a :: KindOf(a) == ReadOnlyKind <==> a == ReadOnly;
    assert forall a :: KindOf(a) == HiddenKind <==> a == Hidden;
    assert forall a :: KindOf(a) == RuntimeOnlyKind <==> a == RuntimeOnly;
  }

  /** Appending attributes of other classes changes neither HasAttribute nor GetAttribute of a class. */
  lemma AppendOtherClasses(attributes: seq<Attribute>, more: seq<Attribute>, k: Kind)
    requires forall i :: 0 <= i < |more| ==> KindOf(more[i]) != k
    ensures HasAttribute(attributes + more, k) == HasAttribute(attributes, k)
    ensures GetAttribute(attributes + more, k) == GetAttribute(attributes, k)
  {
    var s := attributes + more;
    assert forall i :: 0 <= i < |attributes| ==> s[i] == attributes[i];
    assert forall i :: |attributes| <= i < |s| ==> s[i] == more[i - |attributes|];
    if HasAttribute(attributes, k) {
      GetAttributePrefix(attributes, more, k);
    }
  }

  /** GetAttribute looks no further than the first attribute of its class: what follows does not matter. */
  lemma {:induction false} GetAttributePrefix(attributes: seq<Attribute>, more: seq<Attribute>, k: Kind)
    requires HasAttribute(attributes, k)
    ensures GetAttribute(attributes + more, k) == GetAttribute(attributes, k)
  {
    if KindOf(attributes[0]) != k {
      var i :| 0 <= i < |attributes| && KindOf(attributes[i]) == k;
      assert attributes[1..][i - 1] == attributes[i];
      GetAttributePrefix(attributes[1..], more, k);
      assert (attributes + more)[1..] == attributes[1..] + more;
    }
  }
}
