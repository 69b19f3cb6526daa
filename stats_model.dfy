// The collated atom model that the stats-log code generators read, and the
// annotation scan that the native and the Rust writers share. Collation itself
// (protobuf descriptor reflection) is not part of this model: atoms, their fields
// and their annotations are inputs.
module StatsModel {

  /** java_type_t: the type of one atom field. */
  datatype JavaType =
    | Boolean | Int | Long | Float | Double | String | Enum | Object | KeyValuePair
    | AttributionChain | ByteArray
    | BooleanArray | IntArray | LongArray | FloatArray | StringArray | EnumArray

  /** is_repeated_field: the six array types of the repeated scalar fields. */
  predicate IsRepeated(t: JavaType)
  {
    t.BooleanArray? || t.IntArray? || t.LongArray? || t.FloatArray? || t.StringArray? || t.EnumArray?
  }

  // Android API levels the generators distinguish.
  const ApiQ: int := 29
  const ApiR: int := 30
  const ApiS: int := 31
  const ApiT: int := 33

  /** The field number under which atom-level annotations are filed. */
  const AtomIdFieldNumber: int := 0
  /** Atom codes at or above this belong to pulled atoms. */
  const PullAtomStartId: int := 10000
  const DefaultModuleName: string := "DEFAULT"
  /** The names of the two oneofs of the Atom message. */
  const OneofPushedAtomName: string := "pushed"
  const OneofPulledAtomName: string := "pulled"

  type AnnotationId = nat
  const AnnotationIdDefaultState: AnnotationId := 6
  const AnnotationIdTriggerStateReset: AnnotationId := 7

  /** An annotation's type tag and value: ANNOTATION_TYPE_INT, ANNOTATION_TYPE_BOOL, or
      any other type, which no writer emits. */
  datatype AnnotationValue = IntValue(intValue: int) | BoolValue(boolValue: bool) | UnknownValue

  datatype Annotation = Annotation(annotationId: AnnotationId, value: AnnotationValue)

  /** One field of an atom; enum fields carry their values in key order. */
  datatype AtomField = AtomField(
    name: string,
    javaType: JavaType,
    enumTypeName: string,
    enumValues: seq<(int, string)>)

  /** AtomDecl: one atom as collation leaves it. Field numbers are 1-based; the
      annotations of field f are fieldNumberToAnnotations[f], in set order. */
  datatype AtomDecl = AtomDecl(
    code: int,
    name: string,
    message: string,
    oneOfName: string,
    fields: seq<AtomField>,
    uidField: int,
    primaryFields: seq<int>,
    exclusiveField: int,
    binaryFields: seq<int>,
    whitelisted: bool,
    fieldNumberToAnnotations: map<int, seq<Annotation>>)

  /** What a writer emits for the annotations of one field: addInt32Annotation,
      addBoolAnnotation, and the conditional "if the argument equals resetState, add
      TRIGGER_STATE_RESET with value defaultState". */
  datatype AnnotationOp =
    | AddInt32Annotation(id: AnnotationId, intValue: int)
    | AddBoolAnnotation(id: AnnotationId, boolValue: bool)
    | ResetToDefaultWhen(argIndex: int, resetState: int, defaultState: int)

  /** An int annotation that only feeds the joint reset/default rule. */
  predicate IsStateId(id: AnnotationId)
  {
    id == AnnotationIdTriggerStateReset || id == AnnotationIdDefaultState
  }

  /** What one annotation contributes directly, in place. */
  function PlainOp(a: Annotation): seq<AnnotationOp>
  {
    match a.value
    case IntValue(v) => if IsStateId(a.annotationId) then [] else [AddInt32Annotation(a.annotationId, v)]
    case BoolValue(b) => [AddBoolAnnotation(a.annotationId, b)]
    case UnknownValue => []
  }

  /** The direct output of the first n annotations, in their order. */
  function PlainOps(anns: seq<Annotation>, n: nat): seq<AnnotationOp>
    requires n <= |anns|
  {
    if n == 0 then [] else PlainOps(anns, n - 1) + PlainOp(anns[n - 1])
  }

  /** Whether annotation a is an int annotation with id id. */
  predicate IsIntFor(a: Annotation, id: AnnotationId)
  {
    a.annotationId == id && a.value.IntValue?
  }

  /** The value the scan holds for id after the first n annotations: the last int
      annotation with that id, or -1 when there is none. */
  function LastIntValue(anns: seq<Annotation>, id: AnnotationId, n: nat): (v: int)
    requires n <= |anns|
    ensures v == -1 || exists k :: 0 <= k < n && anns[k] == Annotation(id, IntValue(v))
    ensures (forall k :: 0 <= k < n ==> !IsIntFor(anns[k], id)) ==> v == -1
  {
    if n == 0 then -1
    else if IsIntFor(anns[n - 1], id) then anns[n - 1].value.intValue
    else LastIntValue(anns, id, n - 1)
  }

  /** Both state annotations were seen with a value other than -1. */
  predicate HasResetAndDefault(anns: seq<Annotation>)
  {
    LastIntValue(anns, AnnotationIdDefaultState, |anns|) != -1
    && LastIntValue(anns, AnnotationIdTriggerStateReset, |anns|) != -1
  }

  /** The whole output for one field. */
  function AnnotationOps(anns: seq<Annotation>, argIndex: int): seq<AnnotationOp>
  {
    PlainOps(anns, |anns|)
    + if HasResetAndDefault(anns) then
        [ResetToDefaultWhen(argIndex, LastIntValue(anns, AnnotationIdTriggerStateReset, |anns|),
                            LastIntValue(anns, AnnotationIdDefaultState, |anns|))]
      else []
  }

  /** The loop of write_annotations (native, and its copy in the Rust writer): emit
      plain annotations in set order while remembering the reset and default states,
      then emit the joint conditional when both were seen. */
  method ScanAnnotations(anns: seq<Annotation>, argIndex: int) returns (ops: seq<AnnotationOp>)
    ensures ops == AnnotationOps(anns, argIndex)
  {
    var resetState := -1;
    var defaultState := -1;
    ops := [];
    for i := 0 to |anns|
      invariant ops == PlainOps(anns, i)
      invariant resetState == LastIntValue(anns, AnnotationIdTriggerStateReset, i)
      invariant defaultState == LastIntValue(anns, AnnotationIdDefaultState, i)
    {
      var a := anns[i];
      match a.value {
        case IntValue(v) =>
          if a.annotationId == AnnotationIdTriggerStateReset {
            resetState := v;
          } else if a.annotationId == AnnotationIdDefaultState {
            defaultState := v;
          } else {
            ops := ops + [AddInt32Annotation(a.annotationId, v)];
          }
        case BoolValue(b) =>
          ops := ops + [AddBoolAnnotation(a.annotationId, b)];
        case UnknownValue =>
      }
    }
    if defaultState != -1 && resetState != -1 {
      ops := ops + [ResetToDefaultWhen(argIndex, resetState, defaultState)];
    }
  }

  /** The direct output holds an addInt32Annotation exactly for the int annotations
      that are not state annotations, and an addBoolAnnotation exactly for the bool
      annotations, and never a conditional. */
  lemma {:induction false} PlainOpsMembership(anns: seq<Annotation>, n: nat, op: AnnotationOp)
    requires n <= |anns|
    ensures op.AddInt32Annotation? ==>
      (op in PlainOps(anns, n) <==>
        !IsStateId(op.id) && exists k :: 0 <= k < n && anns[k] == Annotation(op.id, IntValue(op.intValue)))
    ensures op.AddBoolAnnotation? ==>
      (op in PlainOps(anns, n) <==> exists k :: 0 <= k < n && anns[k] == Annotation(op.id, BoolValue(op.boolValue)))
    ensures op.ResetToDefaultWhen? ==> op !in PlainOps(anns, n)
  {
    if n > 0 {
      PlainOpsMembership(anns, n - 1, op);
      assert PlainOps(anns, n) == PlainOps(anns, n - 1) + PlainOp(anns[n - 1]);
      if op.AddInt32Annotation? && op in PlainOp(anns[n - 1]) {
        assert anns[n - 1] == Annotation(op.id, IntValue(op.intValue));
      }
      if op.AddBoolAnnotation? && op in PlainOp(anns[n - 1]) {
        assert anns[n - 1] == Annotation(op.id, BoolValue(op.boolValue));
      }
    }
  }

  /** Annotations are emitted in set order: the output of a concatenation is the
      concatenation of the outputs. */
  lemma {:induction false} PlainOpsConcat(a: seq<Annotation>, b: seq<Annotation>, n: nat)
    requires n <= |b|
    ensures PlainOps(a + b, |a| + n) == PlainOps(a, |a|) + PlainOps(b, n)
  {
    if n == 0 {
      PlainOpsPrefix(a, b, |a|);
    } else {
      PlainOpsConcat(a, b, n - 1);
      assert (a + b)[|a| + n - 1] == b[n - 1];
    }
  }

  /** The output of a prefix does not look past it. */
  lemma {:induction false} PlainOpsPrefix(a: seq<Annotation>, b: seq<Annotation>, n: nat)
    requires n <= |a|
    ensures PlainOps(a + b, n) == PlainOps(a, n)
  {
    if n > 0 {
      PlainOpsPrefix(a, b, n - 1);
      assert (a + b)[n - 1] == a[n - 1];
    }
  }

  /** The joint rule: a reset or default int annotation is never emitted as such; the
      conditional appears exactly when both were seen with a value other than -1, and
      it is then the last operation and carries the last values seen. */
  lemma StateAnnotationsOnlyJointly(anns: seq<Annotation>, argIndex: int)
    ensures forall op :: op in AnnotationOps(anns, argIndex) && op.AddInt32Annotation? ==> !IsStateId(op.id)
    ensures (exists op :: op in AnnotationOps(anns, argIndex) && op.ResetToDefaultWhen?) <==> HasResetAndDefault(anns)
    ensures HasResetAndDefault(anns) ==>
      AnnotationOps(anns, argIndex)[|AnnotationOps(anns, argIndex)| - 1]
        == ResetToDefaultWhen(argIndex, LastIntValue(anns, AnnotationIdTriggerStateReset, |anns|),
                              LastIntValue(anns, AnnotationIdDefaultState, |anns|))
  {
    var ops := AnnotationOps(anns, argIndex);
    forall op | op in ops
      ensures op.AddInt32Annotation? ==> !IsStateId(op.id)
      ensures op.ResetToDefaultWhen? ==> HasResetAndDefault(anns)
    {
      PlainOpsMembership(anns, |anns|, op);
    }
    if HasResetAndDefault(anns) {
      assert ops[|ops| - 1] in ops;
    }
  }

  /** An explicit -1 counts as absent: a field whose last reset state is -1 (or that
      has none) gets no conditional, whatever its default state; its output is the
      direct output alone. */
  lemma MinusOneIsAbsent(anns: seq<Annotation>, argIndex: int)
    requires LastIntValue(anns, AnnotationIdTriggerStateReset, |anns|) == -1
    ensures AnnotationOps(anns, argIndex) == PlainOps(anns, |anns|)
    ensures forall op :: op in AnnotationOps(anns, argIndex) ==> !op.ResetToDefaultWhen?
  {
    assert !HasResetAndDefault(anns);
    assert AnnotationOps(anns, argIndex) == PlainOps(anns, |anns|) + [];
    forall op | op in AnnotationOps(anns, argIndex)
      ensures !op.ResetToDefaultWhen?
    {
      PlainOpsMembership(anns, |anns|, op);
    }
  }
}
