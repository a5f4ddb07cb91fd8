/**
 * The property-grid editors of the component DSL: NumericalEditor and
 * SliderEditor (Onyx.GodeGen.ComponentDSL/editors) and the SliderEditor of
 * Onyx.CodeGen.ComponentDSL/editors, which adds a Unit option. Each emits one
 * line through CodeGenerator.Append; here each Generate returns that line.
 */
module Editors {
  import opened Wrappers
  import opened Strings
  import opened Attributes
  import opened Fields

  /** The lower bound the editors use: a Min attribute's value, else a Range's lower bound. */
  function EffectiveMin(attributes: seq<Attribute>): Option<string>
  {
    match GetAttribute(attributes, MinKind)
    case Some(Min(v)) => Some(v)
    case _ =>
      match GetAttribute(attributes, RangeKind)
      case Some(Range(lo, _)) => Some(lo)
      case _ => None
  }

  /** The upper bound the editors use: a Max attribute's value, else a Range's upper bound. */
  function EffectiveMax(attributes: seq<Attribute>): Option<string>
  {
    match GetAttribute(attributes, MaxKind)
    case Some(Max(v)) => Some(v)
    case _ =>
      match GetAttribute(attributes, RangeKind)
      case Some(Range(_, hi)) => Some(hi)
      case _ => None
  }

  /** The `.Min` and `.Max` options, each present only when its bound is set, Min first. */
  function BoundOptions(attributes: seq<Attribute>): seq<string>
  {
    (match EffectiveMin(attributes) case Some(v) => [".Min = " + v] case None => [])
    + (match EffectiveMax(attributes) case Some(v) => [".Max = " + v] case None => [])
  }

  /** The `.Unit` and `.DisplayUnit` options of the first Unit attribute, if any. */
  function UnitOptions(attributes: seq<Attribute>): seq<string>
  {
    match GetAttribute(attributes, UnitKind)
    case Some(Unit(u, d)) => [".Unit = Units::" + u, ".DisplayUnit = Units::" + d]
    case _ => []
  }

  /** The call up to its bound variable: the label is the display name, the variable the field's name. */
  function DrawPrefix(f: Field): string
  {
    "isModified |= PropertyGrid::DrawProperty(\"" + DisplayName(f) + "\", " + f.Name
  }

  /** The call with its options in braces. */
  function BracedCall(f: Field, options: seq<string>): string
  {
    DrawPrefix(f) + ", { " + Join(options, ", ") + " } );"
  }

  /** The line NumericalEditor emits: the two-argument call when there are no options. */
  function NumericalLine(f: Field): string
  {
    var options := BoundOptions(f.Attributes);
    if options == [] then DrawPrefix(f) + ");" else BracedCall(f, options)
  }

  /** The line the SliderEditor without units emits. */
  function SliderLine(f: Field): string
  {
    BracedCall(f, BoundOptions(f.Attributes) + [".IsSlider = true"])
  }

  /** The line the SliderEditor with units emits. */
  function SliderUnitLine(f: Field): string
  {
    BracedCall(f, BoundOptions(f.Attributes) + UnitOptions(f.Attributes) + [".IsSlider = true"])
  }

  /** The `min` and `max` locals every editor computes: a Range first, then Min and Max override. */
  method ReadBounds(field: Field) returns (min: Option<string>, max: Option<string>)
    ensures min == EffectiveMin(field.Attributes) && max == EffectiveMax(field.Attributes)
  {
    min := None;
    max := None;
    var range := GetAttribute(field.Attributes, RangeKind);
    if range.Some? && range.value.Range? {
      min := Some(range.value.low);
      max := Some(range.value.high);
    }
    var minAttribute := GetAttribute(field.Attributes, MinKind);
    if minAttribute.Some? && minAttribute.value.Min? {
      min := Some(minAttribute.value.min);
    }
    var maxAttribute := GetAttribute(field.Attributes, MaxKind);
    if maxAttribute.Some? && maxAttribute.value.Max? {
      max := Some(maxAttribute.value.max);
    }
  }

  /** The `.Min` and `.Max` entries the editors add to `numericOptions`. */
  method AddBounds(field: Field) returns (numericOptions: seq<string>)
    ensures numericOptions == BoundOptions(field.Attributes)
  {
    var min, max := ReadBounds(field);
    numericOptions := [];
    if min.Some? {
      numericOptions := numericOptions + [".Min = " + min.value];
    }
    if max.Some? {
      numericOptions := numericOptions + [".Max = " + max.value];
    }
  }

  /** NumericalEditor.Generate. */
  method GenerateNumerical(field: Field) returns (line: string)
    ensures line == NumericalLine(field)
  {
    var numericOptions := AddBounds(field);
    if |numericOptions| > 0 {
      line := DrawPrefix(field) + ", { " + Join(numericOptions, ", ") + " } );";
    } else {
      line := DrawPrefix(field) + ");";
    }
  }

  /** SliderEditor.Generate (no units). */
  method GenerateSlider(field: Field) returns (line: string)
    ensures line == SliderLine(field)
  {
    var numericOptions := AddBounds(field);
    numericOptions := numericOptions + [".IsSlider = true"];
    line := DrawPrefix(field) + ", { " + Join(numericOptions, ", ") + " } );";
  }

  /** SliderEditor.Generate with units. */
  method GenerateSliderWithUnit(field: Field) returns (line: string)
    ensures line == SliderUnitLine(field)
  {
    var bounds := AddBounds(field);
    var numericOptions := bounds;
    var unitAttribute := GetAttribute(field.Attributes, UnitKind);
    if unitAttribute.Some? && unitAttribute.value.Unit? {
      numericOptions := numericOptions + [".Unit = Units::" + unitAttribute.value.unit];
      numericOptions := numericOptions + [".DisplayUnit = Units::" + unitAttribute.value.displayUnit];
    }
    assert numericOptions == bounds + UnitOptions(field.Attributes);
    numericOptions := numericOptions + [".IsSlider = true"];
    line := DrawPrefix(field) + ", { " + Join(numericOptions, ", ") + " } );";
  }

  // ---------------------------------------------------------------------------
  // What the emitted lines promise.
  // ---------------------------------------------------------------------------

  /** The earliest attribute of class `k` is `a`. */
  predicate FirstOfClass(attributes: seq<Attribute>, k: Kind, a: Attribute)
  {
    exists i :: 0 <= i < |attributes| && attributes[i] == a && KindOf(a) == k
                && forall j :: 0 <= j < i ==> KindOf(attributes[j]) != k
  }

  /** GetAttribute finds exactly the earliest attribute of its class. */
  lemma GetAttributeFirst(attributes: seq<Attribute>, k: Kind, a: Attribute)
    ensures GetAttribute(attributes, k) == Some(a) <==> FirstOfClass(attributes, k, a)
  {
    if FirstOfClass(attributes, k, a) {
      var i :| 0 <= i < |attributes| && attributes[i] == a && KindOf(a) == k
               && forall j :: 0 <= j < i ==> KindOf(attributes[j]) != k;
      var r := GetAttribute(attributes, k);
      var i' :| 0 <= i' < |attributes| && attributes[i'] == r.value && KindOf(r.value) == k
                && forall j :: 0 <= j < i' ==> KindOf(attributes[j]) != k;
      assert i == i';
    }
  }

  /**
   * Min takes precedence over Range: the lower bound is the value of the
   * earliest Min attribute, or with none the low end of the earliest Range,
   * and is unset exactly when the field has neither.
   */
  lemma EffectiveMinSpec(attributes: seq<Attribute>, v: string)
    ensures EffectiveMin(attributes) == Some(v) <==>
      FirstOfClass(attributes, MinKind, Min(v))
      || (!HasAttribute(attributes, MinKind) && exists hi :: FirstOfClass(attributes, RangeKind, Range(v, hi)))
    ensures EffectiveMin(attributes).None? <==> !HasAttribute(attributes, MinKind) && !HasAttribute(attributes, RangeKind)
  {
    GetAttributeFirst(attributes, MinKind, Min(v));
    var r := GetAttribute(attributes, RangeKind);
    if r.Some? {
      GetAttributeFirst(attributes, RangeKind, r.value);
      forall hi | FirstOfClass(attributes, RangeKind, Range(v, hi)) ensures r.value == Range(v, hi) {
        GetAttributeFirst(attributes, RangeKind, Range(v, hi));
      }
    } else {
      forall hi ensures !FirstOfClass(attributes, RangeKind, Range(v, hi)) {
        GetAttributeFirst(attributes, RangeKind, Range(v, hi));
      }
    }
  }

  /**
   * Max takes precedence over Range: the upper bound is the value of the
   * earliest Max attribute, or with none the high end of the earliest Range,
   * and is unset exactly when the field has neither.
   */
  lemma EffectiveMaxSpec(attributes: seq<Attribute>, v: string)
    ensures EffectiveMax(attributes) == Some(v) <==>
      FirstOfClass(attributes, MaxKind, Max(v))
      || (!HasAttribute(attributes, MaxKind) && exists lo :: FirstOfClass(attributes, RangeKind, Range(lo, v)))
    ensures EffectiveMax(attributes).None? <==> !HasAttribute(attributes, MaxKind) && !HasAttribute(attributes, RangeKind)
  {
    GetAttributeFirst(attributes, MaxKind, Max(v));
    var r := GetAttribute(attributes, RangeKind);
    if r.Some? {
      GetAttributeFirst(attributes, RangeKind, r.value);
      forall lo | FirstOfClass(attributes, RangeKind, Range(lo, v)) ensures r.value == Range(lo, v) {
        GetAttributeFirst(attributes, RangeKind, Range(lo, v));
      }
    } else {
      forall lo ensures !FirstOfClass(attributes, RangeKind, Range(lo, v)) {
        GetAttributeFirst(attributes, RangeKind, Range(lo, v));
      }
    }
  }

  /**
   * The bound options: one per bound that is set, `.Min` first and `.Max`
   * last, each carrying its bound's value.
   */
  lemma BoundOptionsSpec(attributes: seq<Attribute>)
    ensures var options := BoundOptions(attributes);
      var min := EffectiveMin(attributes);
      var max := EffectiveMax(attributes);
      && |options| == (if min.Some? then 1 else 0) + (if max.Some? then 1 else 0)
      && (min.Some? ==> options[0] == ".Min = " + min.value)
      && (max.Some? ==> options[|options| - 1] == ".Max = " + max.value)
  {
  }

  /**
   * NumericalEditor emits the two-argument call exactly when the field has
   * no Min, Max or Range attribute, and the braced call otherwise. Either way
   * the line starts with the display name as label and the field's name as
   * variable.
   */
  lemma NumericalLineSpec(f: Field)
    ensures DrawPrefix(f) <= NumericalLine(f)
    ensures NumericalLine(f) == DrawPrefix(f) + ");" <==>
      !HasAttribute(f.Attributes, MinKind) && !HasAttribute(f.Attributes, MaxKind) && !HasAttribute(f.Attributes, RangeKind)
  {
    var p := DrawPrefix(f);
    if BoundOptions(f.Attributes) != [] {
      var tail := ", { " + Join(BoundOptions(f.Attributes), ", ") + " } );";
      assert NumericalLine(f) == p + tail;
      assert (p + tail)[|p|] == ',' != (p + ");")[|p|];
    }
  }

  /**
   * Both sliders always emit the braced call and end their options with
   * `.IsSlider = true`; the one with units puts `.Unit` and `.DisplayUnit`
   * between the bounds and that last option, and emits the same line as the
   * one without when the field has no Unit attribute.
   */
  lemma SliderLinesSpec(f: Field)
    ensures SliderLine(f) == BracedCall(f, BoundOptions(f.Attributes) + [".IsSlider = true"])
    ensures !HasAttribute(f.Attributes, UnitKind) ==> SliderUnitLine(f) == SliderLine(f)
    ensures HasAttribute(f.Attributes, UnitKind) ==> exists u, d ::
      SliderUnitLine(f) == BracedCall(f, BoundOptions(f.Attributes)
                                          + [".Unit = Units::" + u, ".DisplayUnit = Units::" + d, ".IsSlider = true"])
      && FirstOfClass(f.Attributes, UnitKind, Unit(u, d))
  {
    var g := GetAttribute(f.Attributes, UnitKind);
    if g.Some? {
      GetAttributeFirst(f.Attributes, UnitKind, g.value);
      var b := BoundOptions(f.Attributes);
      assert b + UnitOptions(f.Attributes) + [".IsSlider = true"]
          == b + [".Unit = Units::" + g.value.unit, ".DisplayUnit = Units::" + g.value.displayUnit, ".IsSlider = true"];
    } else {
      assert BoundOptions(f.Attributes) + UnitOptions(f.Attributes) == BoundOptions(f.Attributes);
    }
  }
}
