/**
 * The structural type descriptors and runtime values (core/src/types/mod.rs),
 * with type inference (`to_original_type`) and conformance (`is_instance_of`).
 * Struct fields are sorted association lists keyed by field name, as a
 * `BTreeMap<String, _>` is.
 */
module Types {
  import opened Wrappers
  import opened Order
  import opened SortedMap
  import opened CorrespondExt

  /** Whether a parameter is taken by shared or exclusive reference. */
  datatype RefType = Immutable | Mutable

  datatype TellurType =
    | USize
    | I64
    | F64
    | String
    | Bool
    | Array(element: TellurType)
    | Struct(fieldTypes: Assoc<string, TellurType>)

  /** The machine integer ranges of `usize` (64-bit target) and `i64`. */
  type USizeInt = x: int | 0 <= x < 0x1_0000_0000_0000_0000
  type I64Int = x: int | -0x8000_0000_0000_0000 <= x < 0x8000_0000_0000_0000

  /**
   * A runtime value. The `f64` payload is kept as its opaque bit pattern: the
   * engine never computes with it.
   */
  datatype TypedValue =
    | USizeValue(u: USizeInt)
    | I64Value(i: I64Int)
    | F64Value(bits: bv64)
    | StringValue(s: string)
    | BoolValue(b: bool)
    | ArrayValue(items: seq<TypedValue>)
    | StructValue(fields: Assoc<string, TypedValue>)

  /**
   * Infers the type of a value. An empty array has no element to sample, so
   * its type is indeterminate (`None`), and so is every struct with an
   * indeterminate field. Array elements that disagree are an error (the source
   * panics).
   */
  function ToOriginalType(v: TypedValue): (r: Result<Option<TellurType>>)
    ensures r.Err? ==> r.error == ArrayTypeInconsistent
    ensures r.Ok? && r.value.Some? ==> TypeShape(r.value.value) == Shape(v)
    ensures !v.ArrayValue? && !v.StructValue? ==> r.Ok? && r.value.Some?
    ensures v == ArrayValue([]) ==> r == Ok(None)
    decreases v, 1
  {
    match v
    case USizeValue(_) => Ok(Some(USize))
    case I64Value(_) => Ok(Some(I64))
    case F64Value(_) => Ok(Some(F64))
    case StringValue(_) => Ok(Some(String))
    case BoolValue(_) => Ok(Some(Bool))
    case ArrayValue(items) =>
      if |items| == 0 then Ok(None)
      else
        var candidate :- ToOriginalType(items[0]);
        var agree :- RestAgree(v, 1, candidate);
        if !agree then Err(ArrayTypeInconsistent)
        else if candidate.None? then Ok(None)
        else Ok(Some(Array(candidate.value)))
    case StructValue(_) =>
      var fieldTypes :- FieldTypes(v, 0);
      if fieldTypes.None? then Ok(None) else Ok(Some(Struct(fieldTypes.value)))
  }

  /**
   * Whether the elements from position `j` on all infer to `candidate`,
   * inferring them in order and stopping at the first that differs; an
   * inference error on the way propagates.
   */
  function RestAgree(v: TypedValue, j: nat, candidate: Option<TellurType>): (r: Result<bool>)
    requires v.ArrayValue? && j <= |v.items|
    ensures r.Err? ==> r.error == ArrayTypeInconsistent
    ensures r == Ok(true) <==> forall i :: j <= i < |v.items| ==> ToOriginalType(v.items[i]) == Ok(candidate)
    decreases v, 0, |v.items| - j
  {
    if j == |v.items| then Ok(true)
    else
      var t :- ToOriginalType(v.items[j]);
      if t != candidate then Ok(false) else RestAgree(v, j + 1, candidate)
  }

  /**
   * The field types from position `j` on, inferred in key order; the first
   * indeterminate field makes the whole struct indeterminate, and fields after
   * it are not inspected.
   */
  function FieldTypes(v: TypedValue, j: nat): (r: Result<Option<Assoc<string, TellurType>>>)
    requires v.StructValue? && j <= |v.fields|
    ensures r.Err? ==> r.error == ArrayTypeInconsistent
    ensures r.Ok? && r.value.Some? ==>
      && |r.value.value| == |v.fields| - j
      && forall i :: 0 <= i < |r.value.value| ==>
           && r.value.value[i].0 == v.fields[j + i].0
           && ToOriginalType(v.fields[j + i].1) == Ok(Some(r.value.value[i].1))
    ensures (forall i :: j <= i < |v.fields| ==> ToOriginalType(v.fields[i].1).Ok? && ToOriginalType(v.fields[i].1).value.Some?)
      ==> r.Ok? && r.value.Some?
    decreases v, 0, |v.fields| - j
  {
    if j == |v.fields| then Ok(Some([]))
    else
      var t :- ToOriginalType(v.fields[j].1);
      if t.None? then Ok(None)
      else
        var rest :- FieldTypes(v, j + 1);
        if rest.None? then Ok(None)
        else
          var r := [(v.fields[j].0, t.value)] + rest.value;
          assert forall i :: 1 <= i < |r| ==> r[i] == rest.value[i - 1];
          Ok(Some(r))
  }

  /**
   * Conformance of a value to a type: same constructor, every array element
   * conforms, and struct fields correspond one to one in key order with equal
   * names and conforming values.
   */
  predicate IsInstanceOf(v: TypedValue, t: TellurType)
    decreases v
    ensures IsInstanceOf(v, t) ==> Shape(v) == TypeShape(t)
    ensures Shape(v) < 5 ==> (IsInstanceOf(v, t) <==> Shape(v) == TypeShape(t))
    ensures v == ArrayValue([]) ==> (IsInstanceOf(v, t) <==> t.Array?)
  {
    match (v, t)
    case (USizeValue(_), USize) => true
    case (I64Value(_), I64) => true
    case (F64Value(_), F64) => true
    case (StringValue(_), String) => true
    case (BoolValue(_), Bool) => true
    case (ArrayValue(items), Array(e)) =>
      forall i :: 0 <= i < |items| ==> IsInstanceOf(items[i], e)
    case (StructValue(fields), Struct(fieldTypes)) =>
      && |fields| == |fieldTypes|
      && forall i :: 0 <= i < |fields| ==>
           fields[i].0 == fieldTypes[i].0 && IsInstanceOf(fields[i].1, fieldTypes[i].1)
    case _ => false
  }

  /** The per-field check handed to `correspond` in the struct case. */
  predicate FieldConforms(field: (string, TypedValue), fieldType: (string, TellurType)) {
    field.0 == fieldType.0 && IsInstanceOf(field.1, fieldType.1)
  }

  /** The constructor tag shared by a value and its type. */
  function Shape(v: TypedValue): nat {
    match v
    case USizeValue(_) => 0
    case I64Value(_) => 1
    case F64Value(_) => 2
    case StringValue(_) => 3
    case BoolValue(_) => 4
    case ArrayValue(_) => 5
    case StructValue(_) => 6
  }

  function TypeShape(t: TellurType): nat {
    match t
    case USize => 0
    case I64 => 1
    case F64 => 2
    case String => 3
    case Bool => 4
    case Array(_) => 5
    case Struct(_) => 6
  }

  /** A value never conforms to a type of another constructor. */
  lemma ShapeMismatchRejects(v: TypedValue, t: TellurType)
    requires Shape(v) != TypeShape(t)
    ensures !IsInstanceOf(v, t)
  {
  }

  /** Struct conformance is exactly `correspond` with the per-field check. */
  lemma StructConformsIffCorrespond(fields: Assoc<string, TypedValue>, fieldTypes: Assoc<string, TellurType>)
    ensures IsInstanceOf(StructValue(fields), Struct(fieldTypes)) == Correspond(fields, fieldTypes, FieldConforms)
  {
  }

  /** An empty array conforms to every array type; a non-empty one iff all its elements do. */
  lemma ArrayConformance(items: seq<TypedValue>, e: TellurType)
    ensures |items| == 0 ==> IsInstanceOf(ArrayValue(items), Array(e))
    ensures IsInstanceOf(ArrayValue(items), Array(e)) <==> forall i :: 0 <= i < |items| ==> IsInstanceOf(items[i], e)
  {
  }

  /**
   * Array inference succeeds exactly when every element infers, without
   * error, to the same result as the first; that common result, if
   * determinate, becomes the element type.
   */
  lemma {:induction false} ArrayInference(items: seq<TypedValue>)
    requires |items| > 0
    ensures ToOriginalType(ArrayValue(items)).Ok? <==>
      ToOriginalType(items[0]).Ok? && forall i :: 0 <= i < |items| ==> ToOriginalType(items[i]) == ToOriginalType(items[0])
    ensures ToOriginalType(ArrayValue(items)).Ok? ==>
      ToOriginalType(ArrayValue(items)).value ==
        (if ToOriginalType(items[0]).value.None? then None else Some(Array(ToOriginalType(items[0]).value.value)))
  {
    var v := ArrayValue(items);
    var c := ToOriginalType(items[0]);
    if c.Ok? {
      var agree := RestAgree(v, 1, c.value);
      if agree == Ok(true) {
        assert forall i :: 0 <= i < |items| ==> ToOriginalType(items[i]) == c;
      } else {
        assert !(forall i :: 1 <= i < |items| ==> ToOriginalType(items[i]) == c);
      }
    }
  }

  /** Soundness: a value is an instance of the type inferred for it. */
  lemma {:induction false} InferenceSound(v: TypedValue, t: TellurType)
    requires ToOriginalType(v) == Ok(Some(t))
    ensures IsInstanceOf(v, t)
    decreases v
  {
    match v
    case ArrayValue(items) =>
      ArrayInference(items);
      forall i | 0 <= i < |items| ensures IsInstanceOf(items[i], t.element) {
        InferenceSound(items[i], t.element);
      }
    case StructValue(fields) =>
      var ts := FieldTypes(v, 0).value.value;
      forall i | 0 <= i < |fields| ensures IsInstanceOf(fields[i].1, ts[i].1) {
        InferenceSound(fields[i].1, ts[i].1);
      }
    case _ =>
  }

  /**
   * Exactness: when inference is determinate, the inferred type is the only
   * type the value is an instance of.
   */
  lemma {:induction false} InferenceExact(v: TypedValue, inferred: TellurType, t: TellurType)
    requires ToOriginalType(v) == Ok(Some(inferred))
    ensures IsInstanceOf(v, t) <==> t == inferred
    decreases v
  {
    InferenceSound(v, inferred);
    if IsInstanceOf(v, t) {
      match v
      case ArrayValue(items) =>
        ArrayInference(items);
        InferenceExact(items[0], inferred.element, t.element);
      case StructValue(fields) =>
        var ts := FieldTypes(v, 0).value.value;
        forall i | 0 <= i < |fields| ensures t.fieldTypes[i] == ts[i] {
          InferenceExact(fields[i].1, ts[i].1, t.fieldTypes[i].1);
        }
        assert t.fieldTypes == ts;
      case _ =>
    }
  }

  /**
   * A struct whose every field has a determinate type infers to the struct of
   * those field types, under the same names in the same order.
   */
  lemma StructInference(fields: Assoc<string, TypedValue>)
    requires forall i :: 0 <= i < |fields| ==> ToOriginalType(fields[i].1).Ok? && ToOriginalType(fields[i].1).value.Some?
    ensures ToOriginalType(StructValue(fields)).Ok?
    ensures ToOriginalType(StructValue(fields)).value.Some?
    ensures var t := ToOriginalType(StructValue(fields)).value.value;
      t.Struct? && |t.fieldTypes| == |fields| &&
      forall i :: 0 <= i < |fields| ==>
        t.fieldTypes[i] == (fields[i].0, ToOriginalType(fields[i].1).value.value)
  {
    var v := StructValue(fields);
    assert FieldTypes(v, 0).Ok? && FieldTypes(v, 0).value.Some?;
  }

  /**
   * A struct whose field `j` is indeterminate, after fields that are all
   * determinate, is indeterminate, whatever the fields after `j` hold.
   */
  lemma StructIndeterminate(fields: Assoc<string, TypedValue>, j: nat)
    requires j < |fields| && ToOriginalType(fields[j].1) == Ok(None)
    requires forall i :: 0 <= i < j ==> ToOriginalType(fields[i].1).Ok? && ToOriginalType(fields[i].1).value.Some?
    ensures ToOriginalType(StructValue(fields)) == Ok(None)
  {
    FieldTypesNone(StructValue(fields), 0, j);
  }

  lemma {:induction false} FieldTypesNone(v: TypedValue, k: nat, j: nat)
    requires v.StructValue? && k <= j < |v.fields| && ToOriginalType(v.fields[j].1) == Ok(None)
    requires forall i :: k <= i < j ==> ToOriginalType(v.fields[i].1).Ok? && ToOriginalType(v.fields[i].1).value.Some?
    ensures FieldTypes(v, k) == Ok(None)
    decreases j - k
  {
    var t := ToOriginalType(v.fields[k].1);
    if k < j {
      FieldTypesNone(v, k + 1, j);
      assert t.Ok? && t.value.Some?;
      assert FieldTypes(v, k + 1) == Ok(None);
    } else {
      assert t == Ok(None);
    }
  }
}
