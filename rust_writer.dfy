// The Rust writer of the stats-log code generator: one function per atom that has
// no key-value-pair field, and a non-chained wrapper per non-chained atom. Emitted
// Rust is modelled as abstract parameters, arguments and statements.
module RustWriter {
  import opened StatsModel

  /** rust_type_name: the Rust type of a scalar field. */
  function RustTypeName(t: JavaType): string
  {
    match t
    case Boolean => "bool"
    case Int => "i32"
    case Enum => "i32"
    case Long => "i64"
    case Float => "f32"
    case Double => "f64"
    case String => "&str"
    case ByteArray => "&[u8]"
    case _ => "UNKNOWN"
  }

  /** The types rust_type_name knows. */
  predicate HasRustType(t: JavaType)
  {
    t.Boolean? || t.Int? || t.Enum? || t.Long? || t.Float? || t.Double? || t.String? || t.ByteArray?
  }

  /** The types write_rust_method_body writes. */
  predicate RustBodySupports(t: JavaType)
  {
    t.AttributionChain? || t.ByteArray? || t.Boolean? || t.Int? || t.Enum? || t.Float? || t.Long? || t.String?
  }

  /** rust_type_name is "UNKNOWN" exactly off its known types. Every scalar the body
      writes has a Rust type, while DOUBLE has a type the body then rejects. */
  lemma RustTypeNameKnown(t: JavaType)
    ensures RustTypeName(t) != "UNKNOWN" <==> HasRustType(t)
    ensures RustBodySupports(t) && !t.AttributionChain? ==> HasRustType(t)
    ensures HasRustType(t) && !RustBodySupports(t) <==> t.Double?
  {
    match t
    case Boolean =>
    case Int =>
    case Enum =>
    case Long =>
    case Float =>
    case Double =>
    case String =>
    case ByteArray =>
    case _ =>
  }

  /** The one type a name stands for, ENUM read back as INT. */
  function TypeOfRustName(name: string): JavaType
  {
    if name == "bool" then Boolean
    else if name == "i32" then Int
    else if name == "i64" then Long
    else if name == "f32" then Float
    else if name == "f64" then Double
    else if name == "&str" then String
    else if name == "&[u8]" then ByteArray
    else Object
  }

  /** A type up to the INT/ENUM pair. */
  function IntForEnum(t: JavaType): JavaType
  {
    if t.Enum? then Int else t
  }

  /** A known Rust type name can be read back to the type up to INT/ENUM. */
  lemma RustTypeNameDecodes(t: JavaType)
    requires HasRustType(t)
    ensures TypeOfRustName(RustTypeName(t)) == IntForEnum(t)
  {
    match t
    case Boolean =>
    case Int =>
    case Enum =>
    case Long =>
    case Float =>
    case Double =>
    case String =>
      assert RustTypeName(t) != "bool" && RustTypeName(t) != "i32" && RustTypeName(t) != "i64";
      assert RustTypeName(t) != "f32" && RustTypeName(t) != "f64";
    case ByteArray =>
      assert RustTypeName(t)[1] == '[';
  }

  /** Two known types share a Rust name exactly when they are equal or are INT and
      ENUM. */
  lemma RustTypeNamesCollide(t: JavaType, u: JavaType)
    requires HasRustType(t) && HasRustType(u)
    ensures RustTypeName(t) == RustTypeName(u) <==> IntForEnum(t) == IntForEnum(u)
  {
    RustTypeNameDecodes(t);
    RustTypeNameDecodes(u);
  }

  // ---------------------------------------------------------------------------
  // Annotations.

  /** The Rust write_annotations for field number argIndex of atom. The conditional
      tests the field at position argIndex - 1 (fields[argIndex - 1]); that position is
      what the conditional's argIndex holds here. */
  function RustAnnotationOps(atom: AtomDecl, argIndex: int): seq<AnnotationOp>
  {
    if argIndex in atom.fieldNumberToAnnotations
    then AnnotationOps(atom.fieldNumberToAnnotations[argIndex], argIndex - 1)
    else []
  }

  /** write_annotations of the Rust writer: nothing when the field has no annotations,
      otherwise the shared scan with the field position argIndex - 1 as the tested
      field. */
  method WriteRustAnnotations(argIndex: int, atom: AtomDecl) returns (ops: seq<AnnotationOp>)
    ensures argIndex !in atom.fieldNumberToAnnotations ==> ops == []
    ensures argIndex in atom.fieldNumberToAnnotations ==>
      ops == AnnotationOps(atom.fieldNumberToAnnotations[argIndex], argIndex - 1)
  {
    if argIndex !in atom.fieldNumberToAnnotations {
      return [];
    }
    ops := ScanAnnotations(atom.fieldNumberToAnnotations[argIndex], argIndex - 1);
  }

  /** For the field number i + 1 of field i, the conditional tests field i itself; for
      the atom-level number 0 it would name position -1, outside the fields. */
  lemma RustConditionalField(atom: AtomDecl, argIndex: int, op: AnnotationOp)
    requires op in RustAnnotationOps(atom, argIndex) && op.ResetToDefaultWhen?
    ensures 1 <= argIndex <= |atom.fields| ==> 0 <= op.argIndex < |atom.fields| && op.argIndex + 1 == argIndex
    ensures argIndex == AtomIdFieldNumber ==> op.argIndex == -1
  {
    var anns := atom.fieldNumberToAnnotations[argIndex];
    var ops := AnnotationOps(anns, argIndex - 1);
    PlainOpsMembership(anns, |anns|, op);
    assert op !in PlainOps(anns, |anns|);
    assert op == ops[|ops| - 1];
  }

  // ---------------------------------------------------------------------------
  // Signatures and the non-chained call.

  /** One parameter of a generated Rust function. */
  datatype RustParam =
    | PulledData                                  // __pulled_data: &mut AStatsEventList
    | ChainSlice(paramName: string, elementType: string)   // __chain_<name>: &[T]
    | FieldParam(paramName: string, rustType: string)      // _<name> or __non_chained_<name>

  /** The parameters of field i. */
  function FieldParams(f: AtomField, i: int, chain: seq<AtomField>, isNonChained: bool): seq<RustParam>
  {
    if f.javaType == AttributionChain then
      seq(|chain|, j requires 0 <= j < |chain| => ChainSlice("__chain_" + chain[j].name, RustTypeName(chain[j].javaType)))
    else if isNonChained && i < 2 then [FieldParam("__non_chained_" + f.name, RustTypeName(f.javaType))]
    else [FieldParam("_" + f.name, RustTypeName(f.javaType))]
  }

  /** The leading parameter of a pulled atom's function. */
  function PulledParams(atom: AtomDecl): seq<RustParam>
  {
    if atom.oneOfName == OneofPulledAtomName then [PulledData] else []
  }

  /** write_rust_method_signature: the function name, the pulled-data parameter of a
      pulled atom, and one group of parameters per field, in field order. */
  method WriteRustMethodSignature(namePrefix: string, atom: AtomDecl, chain: seq<AtomField>, isNonChained: bool)
    returns (name: string, leading: seq<RustParam>, groups: seq<seq<RustParam>>)
    ensures name == namePrefix + atom.name
    ensures leading == PulledParams(atom)
    ensures |groups| == |atom.fields|
    ensures forall i :: 0 <= i < |groups| ==> groups[i] == FieldParams(atom.fields[i], i, chain, isNonChained)
  {
    name := namePrefix + atom.name;
    leading := if atom.oneOfName == OneofPulledAtomName then [PulledData] else [];
    groups := [];
    for i := 0 to |atom.fields|
      invariant |groups| == i
      invariant forall k :: 0 <= k < i ==> groups[k] == FieldParams(atom.fields[k], k, chain, isNonChained)
    {
      var f := atom.fields[i];
      var group: seq<RustParam> := [];
      if f.javaType == AttributionChain {
        for j := 0 to |chain|
          invariant |group| == j
          invariant forall l :: 0 <= l < j ==>
            group[l] == ChainSlice("__chain_" + chain[l].name, RustTypeName(chain[l].javaType))
        {
          group := group + [ChainSlice("__chain_" + chain[j].name, RustTypeName(chain[j].javaType))];
        }
      } else if isNonChained && i < 2 {
        group := [FieldParam("__non_chained_" + f.name, RustTypeName(f.javaType))];
      } else {
        group := [FieldParam("_" + f.name, RustTypeName(f.javaType))];
      }
      groups := groups + [group];
    }
  }

  /** One argument of the call a non-chained wrapper makes. */
  datatype RustArg = SliceOf(name: string) | Plain(name: string)

  /** The arguments for field i in the non-chained wrapper's call. */
  function FieldArgs(f: AtomField, i: int, chain: seq<AtomField>): seq<RustArg>
  {
    if i < 2 then [SliceOf("__non_chained_" + f.name)]
    else if f.javaType == AttributionChain then
      seq(|chain|, j requires 0 <= j < |chain| => SliceOf("__chain_" + chain[j].name))
    else [Plain("_" + f.name)]
  }

  /** The call of write_rust_stats_write_non_chained_methods: stats_write_<name> with
      one group of arguments per field. */
  method WriteRustNonChainedCall(atom: AtomDecl, chain: seq<AtomField>) returns (callee: string, groups: seq<seq<RustArg>>)
    ensures callee == "stats_write_" + atom.name
    ensures |groups| == |atom.fields|
    ensures forall i :: 0 <= i < |groups| ==> groups[i] == FieldArgs(atom.fields[i], i, chain)
  {
    callee := "stats_write_" + atom.name;
    groups := [];
    for i := 0 to |atom.fields|
      invariant |groups| == i
      invariant forall k :: 0 <= k < i ==> groups[k] == FieldArgs(atom.fields[k], k, chain)
    {
      var f := atom.fields[i];
      var group: seq<RustArg> := [];
      if i < 2 {
        group := [SliceOf("__non_chained_" + f.name)];
      } else if f.javaType == AttributionChain {
        for j := 0 to |chain|
          invariant |group| == j
          invariant forall l :: 0 <= l < j ==> group[l] == SliceOf("__chain_" + chain[l].name)
        {
          group := group + [SliceOf("__chain_" + chain[j].name)];
        }
      } else {
        group := [Plain("_" + f.name)];
      }
      groups := groups + [group];
    }
  }

  /** The wrapper passes its own parameters on: each of the first two scalar fields as a
      one-element slice of the renamed parameter, every later scalar field unchanged
      under its own parameter name, and a later chain as the chain's own parameters. */
  lemma NonChainedPassesOwnParameters(atom: AtomDecl, chain: seq<AtomField>, i: nat)
    requires i < |atom.fields|
    ensures atom.fields[i].javaType != AttributionChain && i < 2 ==>
      FieldArgs(atom.fields[i], i, chain) == [SliceOf(FieldParams(atom.fields[i], i, chain, true)[0].paramName)]
    ensures atom.fields[i].javaType != AttributionChain && i >= 2 ==>
      FieldArgs(atom.fields[i], i, chain) == [Plain(FieldParams(atom.fields[i], i, chain, true)[0].paramName)]
      && FieldParams(atom.fields[i], i, chain, true) == FieldParams(atom.fields[i], i, chain, false)
    ensures atom.fields[i].javaType == AttributionChain && i >= 2 ==>
      |FieldArgs(atom.fields[i], i, chain)| == |FieldParams(atom.fields[i], i, chain, true)|
      && forall j :: 0 <= j < |chain| ==>
        FieldArgs(atom.fields[i], i, chain)[j].name == FieldParams(atom.fields[i], i, chain, true)[j].paramName
  {
  }

  // ---------------------------------------------------------------------------
  // Bodies.

  /** One statement of a generated Rust function body. */
  datatype RustStmt =
    | ObtainEvent          // AStatsEvent_obtain, its dropper, AStatsEvent_setAtomId
    | AddToPulledList      // AStatsEventList_addStatsEvent(__pulled_data)
    | RustAnnotate(fieldNumber: int, ops: seq<AnnotationOp>)
    | RustWrite(fieldIndex: int, javaType: JavaType)
    | WriteEvent           // AStatsEvent_write and the Result built from it
    | BuildEvent           // AStatsEvent_build, Ok(())

  predicate IsPushed(atom: AtomDecl)
  {
    atom.oneOfName == OneofPushedAtomName
  }

  /** The statements of the first n fields: a write, then the annotations of field
      number i + 1. */
  function RustFieldStmts(atom: AtomDecl, n: nat): seq<RustStmt>
    requires n <= |atom.fields|
  {
    if n == 0 then []
    else RustFieldStmts(atom, n - 1) + [RustWrite(n - 1, atom.fields[n - 1].javaType), RustAnnotate(n, RustAnnotationOps(atom, n))]
  }

  function RustBody(atom: AtomDecl): seq<RustStmt>
  {
    [if IsPushed(atom) then ObtainEvent else AddToPulledList, RustAnnotate(AtomIdFieldNumber, RustAnnotationOps(atom, AtomIdFieldNumber))]
    + RustFieldStmts(atom, |atom.fields|)
    + [if IsPushed(atom) then WriteEvent else BuildEvent]
  }

  /** Whether write_rust_method_body returns 0. */
  predicate RustAccepts(atom: AtomDecl, minApiLevel: int)
  {
    minApiLevel != ApiQ && forall k :: 0 <= k < |atom.fields| ==> RustBodySupports(atom.fields[k].javaType)
  }

  /** write_rust_method_body: 1 right away for API Q, 1 at the first field of an
      unsupported type; otherwise the event set-up of a pushed or a pulled atom, the
      atom-level annotations, a write plus annotations per field, and the ending. */
  method WriteRustMethodBody(atom: AtomDecl, minApiLevel: int) returns (ret: int, stmts: seq<RustStmt>)
    ensures ret == 0 || ret == 1
    ensures ret == 0 <==> RustAccepts(atom, minApiLevel)
    ensures ret == 0 ==> stmts == RustBody(atom)
  {
    stmts := [];
    if minApiLevel == ApiQ {
      return 1, stmts;
    }
    var start := if atom.oneOfName == OneofPushedAtomName then ObtainEvent else AddToPulledList;
    var atomOps := WriteRustAnnotations(AtomIdFieldNumber, atom);
    stmts := [start, RustAnnotate(AtomIdFieldNumber, atomOps)];
    ghost var prelude := stmts;
    for i := 0 to |atom.fields|
      invariant forall k :: 0 <= k < i ==> RustBodySupports(atom.fields[k].javaType)
      invariant stmts == prelude + RustFieldStmts(atom, i)
    {
      var t := atom.fields[i].javaType;
      if !RustBodySupports(t) {
        return 1, stmts;
      }
      var ops := WriteRustAnnotations(i + 1, atom);
      stmts := stmts + [RustWrite(i, t), RustAnnotate(i + 1, ops)];
    }
    var end := if atom.oneOfName == OneofPushedAtomName then WriteEvent else BuildEvent;
    stmts := stmts + [end];
    ret := 0;
  }

  // ---------------------------------------------------------------------------
  // The writers.

  predicate HasKeyValuePair(atom: AtomDecl)
  {
    exists k :: 0 <= k < |atom.fields| && atom.fields[k].javaType == KeyValuePair
  }

  /** The atoms among the first n that get a Rust function: those without a key-value
      pair field, in set order. */
  function RustWritten(decls: seq<AtomDecl>, n: nat): seq<AtomDecl>
    requires n <= |decls|
  {
    if n == 0 then []
    else if HasKeyValuePair(decls[n - 1]) then RustWritten(decls, n - 1)
    else RustWritten(decls, n - 1) + [decls[n - 1]]
  }

  /** The atoms written are exactly those without a key-value pair. */
  lemma {:induction false} RustWrittenMembers(decls: seq<AtomDecl>, n: nat)
    requires n <= |decls|
    ensures forall a :: a in RustWritten(decls, n) <==> a in decls[..n] && !HasKeyValuePair(a)
  {
    if n > 0 {
      RustWrittenMembers(decls, n - 1);
      assert decls[..n] == decls[..n - 1] + [decls[n - 1]];
    }
  }

  /** One more written method for one more written atom. */
  lemma ExtendRustMethods(ms: seq<RustMethod>, ws: seq<AtomDecl>, m: RustMethod, a: AtomDecl, chain: seq<AtomField>)
    requires |ms| == |ws| && forall k :: 0 <= k < |ms| ==> IsRustMethodOf(ms[k], ws[k], chain)
    requires IsRustMethodOf(m, a, chain)
    ensures forall k :: 0 <= k < |ms| + 1 ==> IsRustMethodOf((ms + [m])[k], (ws + [a])[k], chain)
  {
    forall k | 0 <= k < |ms| + 1
      ensures IsRustMethodOf((ms + [m])[k], (ws + [a])[k], chain)
    {
      if k < |ms| {
        assert (ms + [m])[k] == ms[k] && (ws + [a])[k] == ws[k];
      }
    }
  }

  /** One more wrapper for one more written atom. */
  lemma ExtendNonChained(ms: seq<NonChainedRustMethod>, ws: seq<AtomDecl>, m: NonChainedRustMethod, a: AtomDecl, chain: seq<AtomField>)
    requires |ms| == |ws| && forall k :: 0 <= k < |ms| ==> IsNonChainedOf(ms[k], ws[k], chain)
    requires IsNonChainedOf(m, a, chain)
    ensures forall k :: 0 <= k < |ms| + 1 ==> IsNonChainedOf((ms + [m])[k], (ws + [a])[k], chain)
  {
    forall k | 0 <= k < |ms| + 1
      ensures IsNonChainedOf((ms + [m])[k], (ws + [a])[k], chain)
    {
      if k < |ms| {
        assert (ms + [m])[k] == ms[k] && (ws + [a])[k] == ws[k];
      }
    }
  }

  /** The name prefix of an atom's function. */
  function RustMethodPrefix(atom: AtomDecl): (p: string)
    ensures p == "stats_write_" <==> IsPushed(atom)
    ensures p == "add_astats_event_" <==> !IsPushed(atom)
  {
    if IsPushed(atom) then "stats_write_" else "add_astats_event_"
  }

  datatype RustMethod = RustMethod(
    name: string,
    leading: seq<RustParam>,
    params: seq<seq<RustParam>>,
    body: seq<RustStmt>)

  /** The function written for one atom. */
  predicate IsRustMethodOf(m: RustMethod, atom: AtomDecl, chain: seq<AtomField>)
  {
    m.name == RustMethodPrefix(atom) + atom.name
    && m.leading == PulledParams(atom)
    && |m.params| == |atom.fields|
    && (forall i :: 0 <= i < |atom.fields| ==> m.params[i] == FieldParams(atom.fields[i], i, chain, false))
    && m.body == RustBody(atom)
  }

  /** write_rust_stats_write_methods: atoms with a key-value pair are skipped; every
      other atom gets stats_write_<name> (pushed) or add_astats_event_<name>; the first
      body that fails ends the loop with 1. */
  method WriteRustStatsWriteMethods(decls: seq<AtomDecl>, chain: seq<AtomField>, minApiLevel: int)
    returns (ret: int, methods: seq<RustMethod>)
    ensures ret == 0 || ret == 1
    ensures ret == 0 <==> forall a :: a in RustWritten(decls, |decls|) ==> RustAccepts(a, minApiLevel)
    ensures ret == 0 ==> |methods| == |RustWritten(decls, |decls|)|
    ensures ret == 0 ==> forall k :: 0 <= k < |methods| ==> IsRustMethodOf(methods[k], RustWritten(decls, |decls|)[k], chain)
  {
    methods := [];
    ghost var written: seq<AtomDecl> := [];
    for i := 0 to |decls|
      invariant written == RustWritten(decls, i)
      invariant |methods| == |written|
      invariant forall k :: 0 <= k < |methods| ==> IsRustMethodOf(methods[k], written[k], chain)
      invariant forall a :: a in written ==> RustAccepts(a, minApiLevel)
    {
      var atom := decls[i];
      var skip := exists k :: 0 <= k < |atom.fields| && atom.fields[k].javaType == KeyValuePair;
      if skip {
        assert HasKeyValuePair(atom);
        continue;
      }
      var prefix := if atom.oneOfName == OneofPushedAtomName then "stats_write_" else "add_astats_event_";
      var name, leading, groups := WriteRustMethodSignature(prefix, atom, chain, false);
      var r, body := WriteRustMethodBody(atom, minApiLevel);
      if r != 0 {
        RustWrittenMembers(decls, |decls|);
        assert atom in decls[..|decls|];
        return r, methods;
      }
      var m := RustMethod(name, leading, groups, body);
      ExtendRustMethods(methods, written, m, atom, chain);
      methods := methods + [m];
      written := written + [atom];
    }
    ret := 0;
  }

  datatype NonChainedRustMethod = NonChainedRustMethod(
    name: string,
    leading: seq<RustParam>,
    params: seq<seq<RustParam>>,
    callee: string,
    args: seq<seq<RustArg>>)

  predicate IsNonChainedOf(m: NonChainedRustMethod, atom: AtomDecl, chain: seq<AtomField>)
  {
    m.name == "stats_write_non_chained_" + atom.name
    && m.leading == PulledParams(atom)
    && |m.params| == |atom.fields|
    && (forall i :: 0 <= i < |atom.fields| ==> m.params[i] == FieldParams(atom.fields[i], i, chain, true))
    && m.callee == "stats_write_" + atom.name
    && |m.args| == |atom.fields|
    && forall i :: 0 <= i < |atom.fields| ==> m.args[i] == FieldArgs(atom.fields[i], i, chain)
  }

  /** write_rust_stats_write_non_chained_methods: atoms with a key-value pair are
      skipped, every other atom gets a wrapper that calls stats_write_<name>; nothing
      can fail. */
  method WriteRustNonChainedMethods(decls: seq<AtomDecl>, chain: seq<AtomField>) returns (methods: seq<NonChainedRustMethod>)
    ensures |methods| == |RustWritten(decls, |decls|)|
    ensures forall k :: 0 <= k < |methods| ==> IsNonChainedOf(methods[k], RustWritten(decls, |decls|)[k], chain)
  {
    methods := [];
    ghost var written: seq<AtomDecl> := [];
    for i := 0 to |decls|
      invariant written == RustWritten(decls, i)
      invariant |methods| == |written|
      invariant forall k :: 0 <= k < |methods| ==> IsNonChainedOf(methods[k], written[k], chain)
    {
      var atom := decls[i];
      var skip := exists k :: 0 <= k < |atom.fields| && atom.fields[k].javaType == KeyValuePair;
      if skip {
        assert HasKeyValuePair(atom);
        continue;
      }
      var name, leading, groups := WriteRustMethodSignature("stats_write_non_chained_", atom, chain, true);
      var callee, args := WriteRustNonChainedCall(atom, chain);
      var m := NonChainedRustMethod(name, leading, groups, callee, args);
      ExtendNonChained(methods, written, m, atom, chain);
      methods := methods + [m];
      written := written + [atom];
    }
  }

  /** write_stats_log_rust: the code of the write methods only; the non-chained atoms
      never change it. */
  method WriteStatsLogRust(decls: seq<AtomDecl>, nonChainedDecls: seq<AtomDecl>, chain: seq<AtomField>, minApiLevel: int)
    returns (ret: int)
    ensures ret == 0 || ret == 1
    ensures ret == 0 <==> forall a :: a in decls && !HasKeyValuePair(a) ==> RustAccepts(a, minApiLevel)
  {
    var methods;
    ret, methods := WriteRustStatsWriteMethods(decls, chain, minApiLevel);
    RustWrittenMembers(decls, |decls|);
    assert decls[..|decls|] == decls;
    var wrappers := WriteRustNonChainedMethods(nonChainedDecls, chain);
  }

  /** Atoms with a key-value pair are skipped by both writers, the others are kept. */
  lemma KeyValuePairAtomsSkipped(decls: seq<AtomDecl>, a: AtomDecl)
    requires a in decls
    ensures a in RustWritten(decls, |decls|) <==> !HasKeyValuePair(a)
  {
    RustWrittenMembers(decls, |decls|);
    assert decls[..|decls|] == decls;
  }
}
