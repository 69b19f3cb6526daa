// The C++ writer of the stats-log code generator: which statements it emits for
// each signature of the collated atoms, and when it gives up with error code 1.
// The emitted C++ is modelled as abstract statements, not as text.
module NativeWriter {
  import opened StatsModel

  /** FieldNumberToAtomDeclSet: for each field number, the atoms of a signature that
      annotate that field, in set order. */
  type FieldNumberToAtomDeclSet = map<int, seq<AtomDecl>>

  /** Every atom filed under field number f has annotations for f; the `at` lookup
      of write_annotations relies on this. */
  predicate AnnotationsFiled(m: FieldNumberToAtomDeclSet)
  {
    forall f, k :: f in m && 0 <= k < |m[f]| ==> f in m[f][k].fieldNumberToAnnotations
  }

  /** The prefix of the annotation constants in generated C++. */
  function ConstantPrefix(minApiLevel: int): (p: string)
    ensures p == "ASTATSLOG_" <==> minApiLevel > ApiR
    ensures p == "" <==> minApiLevel <= ApiR
  {
    if minApiLevel > ApiR then "ASTATSLOG_" else ""
  }

  /** The `if (ATOM == code) { ... }` block of one atom inside write_annotations. */
  datatype AtomBlock = AtomBlock(atomName: string, ops: seq<AnnotationOp>)

  /** The blocks write_annotations emits for field argIndex. */
  function AnnotationBlocks(argIndex: int, m: FieldNumberToAtomDeclSet): (blocks: seq<AtomBlock>)
    requires AnnotationsFiled(m)
  {
    if argIndex !in m then []
    else
      var atoms := m[argIndex];
      seq(|atoms|, k requires 0 <= k < |atoms| =>
        AtomBlock(atoms[k].name, AnnotationOps(atoms[k].fieldNumberToAnnotations[argIndex], argIndex)))
  }

  /** write_annotations: nothing for a field number with no entry; otherwise one block
      per atom of the set, in set order, holding that atom's annotation operations for
      the field. */
  method WriteAnnotations(argIndex: int, m: FieldNumberToAtomDeclSet, minApiLevel: int)
    returns (constantPrefix: string, blocks: seq<AtomBlock>)
    requires AnnotationsFiled(m)
    ensures constantPrefix == ConstantPrefix(minApiLevel)
    ensures argIndex !in m ==> blocks == []
    ensures argIndex in m ==> |blocks| == |m[argIndex]|
    ensures argIndex in m ==> forall k :: 0 <= k < |blocks| ==>
      blocks[k] == AtomBlock(m[argIndex][k].name,
                             AnnotationOps(m[argIndex][k].fieldNumberToAnnotations[argIndex], argIndex))
    ensures blocks == AnnotationBlocks(argIndex, m)
  {
    constantPrefix := if minApiLevel > ApiR then "ASTATSLOG_" else "";
    blocks := [];
    if argIndex !in m {
      return;
    }
    var atoms := m[argIndex];
    for i := 0 to |atoms|
      invariant |blocks| == i
      invariant forall k :: 0 <= k < i ==>
        blocks[k] == AtomBlock(atoms[k].name, AnnotationOps(atoms[k].fieldNumberToAnnotations[argIndex], argIndex))
    {
      var ops := ScanAnnotations(atoms[i].fieldNumberToAnnotations[argIndex], argIndex);
      blocks := blocks + [AtomBlock(atoms[i].name, ops)];
    }
  }

  // ---------------------------------------------------------------------------
  // Parameter and argument lists.

  /** One parameter of a generated native method, after the leading `int32_t code`. */
  datatype Param =
    | ChainParam(name: string, javaType: JavaType)  // a vector of strings, or a pointer to values
    | ChainLengthParam(name: string)                // size_t <name>_length
    | ArgParam(argIndex: int, javaType: JavaType)
    | ArgLengthParam(argIndex: int)                 // size_t arg<N>_length

  /** One argument of a generated forwarding call, after the leading `code`. */
  datatype CallArg =
    | ChainArg(name: string)
    | ChainLengthArg(name: string)
    | ArgRef(argIndex: int)
    | ArgLengthRef(argIndex: int)

  /** The parameters of one attribution chain field: a string field is passed as a
      vector, any other field as a pointer with a length. */
  function FieldParams(f: AtomField): seq<Param>
  {
    if f.javaType == String then [ChainParam(f.name, f.javaType)]
    else [ChainParam(f.name, f.javaType), ChainLengthParam(f.name)]
  }

  /** The parameters the first n fields of an attribution chain expand to. */
  function ChainParams(chain: seq<AtomField>, n: nat): seq<Param>
    requires n <= |chain|
  {
    if n == 0 then [] else ChainParams(chain, n - 1) + FieldParams(chain[n - 1])
  }

  /** The parameters of one signature element with number argIndex, given the
      parameters of the whole attribution chain. */
  function ElementParams(t: JavaType, argIndex: int, chainParams: seq<Param>): seq<Param>
  {
    if t == AttributionChain then chainParams
    else [ArgParam(argIndex, t)] + if t == BooleanArray then [ArgLengthParam(argIndex)] else []
  }

  /** The parameters of a signature, one group per element, numbered from start on;
      the emitted parameter list is `int32_t code` followed by the groups in order. */
  function SignatureGroups(sig: seq<JavaType>, chainParams: seq<Param>, start: int): seq<seq<Param>>
  {
    seq(|sig|, k requires 0 <= k < |sig| => ElementParams(sig[k], start + k, chainParams))
  }

  /** The argument of a call that passes parameter p on. */
  function Erase(p: Param): CallArg
  {
    match p
    case ChainParam(name, _) => ChainArg(name)
    case ChainLengthParam(name) => ChainLengthArg(name)
    case ArgParam(i, _) => ArgRef(i)
    case ArgLengthParam(i) => ArgLengthRef(i)
  }

  /** The arguments that pass the parameters ps on, in order. */
  function EraseAll(ps: seq<Param>): seq<CallArg>
  {
    seq(|ps|, i requires 0 <= i < |ps| => Erase(ps[i]))
  }

  lemma EraseAllConcat(a: seq<Param>, b: seq<Param>)
    ensures EraseAll(a + b) == EraseAll(a) + EraseAll(b)
  {
  }

  /** The arguments of one attribution chain field in write_native_method_call. */
  function FieldArgs(f: AtomField): seq<CallArg>
  {
    if f.javaType == String then [ChainArg(f.name)] else [ChainArg(f.name), ChainLengthArg(f.name)]
  }

  /** The arguments of the first n fields of an attribution chain. */
  function ChainArgs(chain: seq<AtomField>, n: nat): seq<CallArg>
    requires n <= |chain|
  {
    if n == 0 then [] else ChainArgs(chain, n - 1) + FieldArgs(chain[n - 1])
  }

  /** The arguments of one call element with number argIndex, given the arguments of
      the whole attribution chain. */
  function ElementArgs(t: JavaType, argIndex: int, chainArgs: seq<CallArg>): seq<CallArg>
  {
    if t == AttributionChain then chainArgs
    else [ArgRef(argIndex)] + if t == BooleanArray then [ArgLengthRef(argIndex)] else []
  }

  /** The arguments of a call, one group per element, numbered from start on; the
      emitted argument list is `code` followed by the groups in order. */
  function CallGroups(sig: seq<JavaType>, chainArgs: seq<CallArg>, start: int): seq<seq<CallArg>>
  {
    seq(|sig|, k requires 0 <= k < |sig| => ElementArgs(sig[k], start + k, chainArgs))
  }

  /** write_native_method_signature: after `int32_t code`, each element in turn; the
      argument counter advances over an attribution chain too. */
  method WriteNativeMethodSignature(sig: seq<JavaType>, chain: seq<AtomField>) returns (groups: seq<seq<Param>>)
    ensures |groups| == |sig|
    ensures forall k :: 0 <= k < |sig| ==> groups[k] == ElementParams(sig[k], 1 + k, ChainParams(chain, |chain|))
  {
    groups := [];
    var argIndex := 1;
    for i := 0 to |sig|
      invariant argIndex == i + 1
      invariant |groups| == i
      invariant forall k :: 0 <= k < i ==> groups[k] == ElementParams(sig[k], 1 + k, ChainParams(chain, |chain|))
    {
      var group := [];
      if sig[i] == AttributionChain {
        for j := 0 to |chain|
          invariant group == ChainParams(chain, j)
        {
          if chain[j].javaType == String {
            group := group + [ChainParam(chain[j].name, chain[j].javaType)];
          } else {
            group := group + [ChainParam(chain[j].name, chain[j].javaType), ChainLengthParam(chain[j].name)];
          }
        }
      } else {
        group := group + [ArgParam(argIndex, sig[i])];
        if sig[i] == BooleanArray {
          group := group + [ArgLengthParam(argIndex)];
        }
      }
      groups := groups + [group];
      argIndex := argIndex + 1;
    }
  }

  /** write_native_method_call: after `code`, each element numbered from argIndex on. */
  method WriteNativeMethodCall(sig: seq<JavaType>, chain: seq<AtomField>, argIndex: int) returns (groups: seq<seq<CallArg>>)
    ensures |groups| == |sig|
    ensures forall k :: 0 <= k < |sig| ==> groups[k] == ElementArgs(sig[k], argIndex + k, ChainArgs(chain, |chain|))
  {
    groups := [];
    var index := argIndex;
    for i := 0 to |sig|
      invariant index == argIndex + i
      invariant |groups| == i
      invariant forall k :: 0 <= k < i ==> groups[k] == ElementArgs(sig[k], argIndex + k, ChainArgs(chain, |chain|))
    {
      var group := [];
      if sig[i] == AttributionChain {
        for j := 0 to |chain|
          invariant group == ChainArgs(chain, j)
        {
          if chain[j].javaType == String {
            group := group + [ChainArg(chain[j].name)];
          } else {
            group := group + [ChainArg(chain[j].name), ChainLengthArg(chain[j].name)];
          }
        }
      } else {
        group := group + [ArgRef(index)];
        if sig[i] == BooleanArray {
          group := group + [ArgLengthRef(index)];
        }
      }
      groups := groups + [group];
      index := index + 1;
    }
  }

  /** The chain arguments of a call pass the chain parameters on. */
  lemma {:induction false} ChainArgsErase(chain: seq<AtomField>, n: nat)
    requires n <= |chain|
    ensures ChainArgs(chain, n) == EraseAll(ChainParams(chain, n))
  {
    if n > 0 {
      ChainArgsErase(chain, n - 1);
      EraseAllConcat(ChainParams(chain, n - 1), FieldParams(chain[n - 1]));
    }
  }

  /** One element's arguments pass its parameters on. */
  lemma ElementArgsErase(t: JavaType, argIndex: int, chainParams: seq<Param>)
    ensures ElementArgs(t, argIndex, EraseAll(chainParams)) == EraseAll(ElementParams(t, argIndex, chainParams))
  {
  }

  /** A call numbered like a signature passes exactly that signature's parameters on,
      group by group, one argument per parameter, in order, when its chain arguments
      pass the chain parameters on. */
  lemma CallPassesSignature(sig: seq<JavaType>, chainParams: seq<Param>, start: int)
    ensures |CallGroups(sig, EraseAll(chainParams), start)| == |SignatureGroups(sig, chainParams, start)|
    ensures forall k :: 0 <= k < |sig| ==>
      CallGroups(sig, EraseAll(chainParams), start)[k] == EraseAll(SignatureGroups(sig, chainParams, start)[k])
  {
    forall k | 0 <= k < |sig|
      ensures CallGroups(sig, EraseAll(chainParams), start)[k] == EraseAll(SignatureGroups(sig, chainParams, start)[k])
    {
      ElementArgsErase(sig[k], start + k, chainParams);
    }
  }

  /** A chain expands to chain parameters only. */
  predicate NoArgParams(ps: seq<Param>)
  {
    forall p :: p in ps ==> p.ChainParam? || p.ChainLengthParam?
  }

  /** Chain parameters are never numbered arguments. */
  lemma {:induction false} ChainParamsHaveNoArg(chain: seq<AtomField>, n: nat)
    requires n <= |chain|
    ensures NoArgParams(ChainParams(chain, n))
  {
    if n > 0 {
      ChainParamsHaveNoArg(chain, n - 1);
    }
  }

  /** The numbered parameters of one element. */
  lemma ElementParamsShape(t: JavaType, argIndex: int, chainParams: seq<Param>, p: Param)
    requires NoArgParams(chainParams)
    ensures p.ArgParam? ==>
      (p in ElementParams(t, argIndex, chainParams) <==> p.argIndex == argIndex && p.javaType == t && t != AttributionChain)
    ensures p.ArgLengthParam? ==>
      (p in ElementParams(t, argIndex, chainParams) <==> p.argIndex == argIndex && t == BooleanArray)
  {
  }

  /** The argument shape: element k gets number start + k; a numbered parameter exists
      exactly for the elements that are not attribution chains, and a length
      parameter exactly for the BOOLEAN_ARRAY elements. */
  lemma SignatureParamsShape(sig: seq<JavaType>, chainParams: seq<Param>, start: int, p: Param)
    requires NoArgParams(chainParams)
    ensures p.ArgParam? ==>
      ((exists k :: 0 <= k < |sig| && p in SignatureGroups(sig, chainParams, start)[k]) <==>
        exists k :: 0 <= k < |sig| && p.argIndex == start + k && sig[k] == p.javaType && p.javaType != AttributionChain)
    ensures p.ArgLengthParam? ==>
      ((exists k :: 0 <= k < |sig| && p in SignatureGroups(sig, chainParams, start)[k]) <==>
        exists k :: 0 <= k < |sig| && p.argIndex == start + k && sig[k] == BooleanArray)
  {
    forall k | 0 <= k < |sig|
      ensures p.ArgParam? ==>
        (p in SignatureGroups(sig, chainParams, start)[k] <==> p.argIndex == start + k && sig[k] == p.javaType && p.javaType != AttributionChain)
      ensures p.ArgLengthParam? ==>
        (p in SignatureGroups(sig, chainParams, start)[k] <==> p.argIndex == start + k && sig[k] == BooleanArray)
    {
      ElementParamsShape(sig[k], start + k, chainParams, p);
    }
  }

  /** A BOOLEAN_ARRAY element gets its extra length both in the signature and in the
      forwarding call. */
  lemma BooleanArrayCarriesLength(sig: seq<JavaType>, chainParams: seq<Param>, chainArgs: seq<CallArg>, start: int, k: nat)
    requires k < |sig| && sig[k] == BooleanArray
    ensures ArgLengthParam(start + k) in SignatureGroups(sig, chainParams, start)[k]
    ensures ArgLengthRef(start + k) in CallGroups(sig, chainArgs, start)[k]
  {
  }

  // ---------------------------------------------------------------------------
  // Method bodies.

  lemma AppendAssoc<T>(a: seq<T>, b: seq<T>, c: seq<T>)
    ensures (a + b) + c == a + (b + c)
  {
  }

  /** One statement of a generated method body. */
  datatype Stmt =
    | SetAtomId
    | Annotate(argIndex: int, constantPrefix: string, blocks: seq<AtomBlock>)
    | WriteField(argIndex: int, javaType: JavaType)
    | PushValue(argIndex: int, javaType: JavaType)
    | SetValue(valueIndex: int, argIndex: int, javaType: JavaType)

  /** The types write_native_method_body (AStatsEvent) handles: no repeated field
      below API T, and none of OBJECT, DOUBLE, KEY_VALUE_PAIR. */
  predicate AStatsEventSupports(t: JavaType, minApiLevel: int)
  {
    !(minApiLevel < ApiT && IsRepeated(t)) && !(t.Object? || t.Double? || t.KeyValuePair?)
  }

  /** The types of the StatsEventCompat body written for API Q. */
  predicate CompatSupports(t: JavaType)
  {
    t.AttributionChain? || t.ByteArray? || t.Boolean? || t.Int? || t.Enum? || t.Float? || t.Long? || t.String?
  }

  /** The types of the bootstrap body. */
  predicate BootstrapSupports(t: JavaType)
  {
    t.ByteArray? || t.Boolean? || t.Int? || t.Enum? || t.Float? || t.Long? || t.String?
  }

  /** The types of the vendor atom builder. */
  predicate VendorSupports(t: JavaType, minApiLevel: int)
  {
    !(minApiLevel < ApiT && IsRepeated(t)) && !(t.AttributionChain? || t.Object? || t.Double? || t.KeyValuePair?)
  }

  /** How the backends' type support nests: bootstrap within API Q within AStatsEvent,
      and the vendor builder takes what AStatsEvent takes except attribution chains. */
  lemma SupportNesting(t: JavaType, minApiLevel: int)
    ensures BootstrapSupports(t) ==> CompatSupports(t)
    ensures CompatSupports(t) ==> AStatsEventSupports(t, minApiLevel)
    ensures VendorSupports(t, minApiLevel) <==> AStatsEventSupports(t, minApiLevel) && !t.AttributionChain?
    ensures CompatSupports(t) <==> AStatsEventSupports(t, ApiQ) && !IsRepeated(t)
    ensures BootstrapSupports(t) <==> CompatSupports(t) && !t.AttributionChain?
  {
  }

  /** The field statements of the first n elements: a write of the value, then the
      field's annotations. */
  function FieldStmts(sig: seq<JavaType>, m: FieldNumberToAtomDeclSet, minApiLevel: int, n: nat): seq<Stmt>
    requires n <= |sig| && AnnotationsFiled(m)
  {
    if n == 0 then []
    else
      FieldStmts(sig, m, minApiLevel, n - 1)
      + [WriteField(n, sig[n - 1]), Annotate(n, ConstantPrefix(minApiLevel), AnnotationBlocks(n, m))]
  }

  /** The statements of an event body that accepted every element. */
  function EventBody(sig: seq<JavaType>, m: FieldNumberToAtomDeclSet, minApiLevel: int): seq<Stmt>
    requires AnnotationsFiled(m)
  {
    [SetAtomId, Annotate(AtomIdFieldNumber, ConstantPrefix(minApiLevel), AnnotationBlocks(AtomIdFieldNumber, m))]
    + FieldStmts(sig, m, minApiLevel, |sig|)
  }

  /** write_native_method_body: 1 as soon as an element is a repeated type below API T
      or an unsupported type; otherwise 0 with the atom id, the atom-level annotations
      and a write plus annotations per element. */
  method WriteNativeMethodBody(sig: seq<JavaType>, m: FieldNumberToAtomDeclSet, minApiLevel: int)
    returns (ret: int, stmts: seq<Stmt>)
    requires AnnotationsFiled(m)
    ensures ret == 0 || ret == 1
    ensures ret == 0 <==> forall k :: 0 <= k < |sig| ==> AStatsEventSupports(sig[k], minApiLevel)
    ensures ret == 0 ==> stmts == EventBody(sig, m, minApiLevel)
  {
    var argIndex := 1;
    var prefix, atomBlocks := WriteAnnotations(AtomIdFieldNumber, m, minApiLevel);
    stmts := [SetAtomId, Annotate(AtomIdFieldNumber, prefix, atomBlocks)];
    ghost var prelude := stmts;
    for i := 0 to |sig|
      invariant argIndex == i + 1
      invariant forall k :: 0 <= k < i ==> AStatsEventSupports(sig[k], minApiLevel)
      invariant stmts == prelude + FieldStmts(sig, m, minApiLevel, i)
    {
      var t := sig[i];
      if minApiLevel < ApiT && IsRepeated(t) {
        return 1, stmts;
      }
      if t.Object? || t.Double? || t.KeyValuePair? {
        return 1, stmts;
      }
      var fieldPrefix, blocks := WriteAnnotations(argIndex, m, minApiLevel);
      AppendAssoc(prelude, FieldStmts(sig, m, minApiLevel, i), [WriteField(argIndex, t), Annotate(argIndex, fieldPrefix, blocks)]);
      stmts := stmts + [WriteField(argIndex, t), Annotate(argIndex, fieldPrefix, blocks)];
      argIndex := argIndex + 1;
    }
    ret := 0;
  }

  /** The StatsEventCompat body of API Q: 1 on a type outside CompatSupports (a
      repeated field, OBJECT, DOUBLE, KEY_VALUE_PAIR); otherwise the same statements as
      the AStatsEvent body. */
  method WriteCompatMethodBody(sig: seq<JavaType>, m: FieldNumberToAtomDeclSet, minApiLevel: int)
    returns (ret: int, stmts: seq<Stmt>)
    requires AnnotationsFiled(m)
    ensures ret == 0 || ret == 1
    ensures ret == 0 <==> forall k :: 0 <= k < |sig| ==> CompatSupports(sig[k])
    ensures ret == 0 ==> stmts == EventBody(sig, m, minApiLevel)
  {
    var argIndex := 1;
    var prefix, atomBlocks := WriteAnnotations(AtomIdFieldNumber, m, minApiLevel);
    stmts := [SetAtomId, Annotate(AtomIdFieldNumber, prefix, atomBlocks)];
    ghost var prelude := stmts;
    for i := 0 to |sig|
      invariant argIndex == i + 1
      invariant forall k :: 0 <= k < i ==> CompatSupports(sig[k])
      invariant stmts == prelude + FieldStmts(sig, m, minApiLevel, i)
    {
      var t := sig[i];
      if !CompatSupports(t) {
        return 1, stmts;
      }
      var fieldPrefix, blocks := WriteAnnotations(argIndex, m, minApiLevel);
      AppendAssoc(prelude, FieldStmts(sig, m, minApiLevel, i), [WriteField(argIndex, t), Annotate(argIndex, fieldPrefix, blocks)]);
      stmts := stmts + [WriteField(argIndex, t), Annotate(argIndex, fieldPrefix, blocks)];
      argIndex := argIndex + 1;
    }
    ret := 0;
  }

  /** The pushes of the first n elements of a bootstrap body. */
  function Pushes(sig: seq<JavaType>, n: nat): seq<Stmt>
    requires n <= |sig|
  {
    if n == 0 then [] else Pushes(sig, n - 1) + [PushValue(n, sig[n - 1])]
  }

  /** A bootstrap body succeeds: no atom-level annotation, and every element has a
      supported type and no field annotation. */
  predicate BootstrapAccepts(sig: seq<JavaType>, m: FieldNumberToAtomDeclSet)
  {
    AtomIdFieldNumber !in m && forall k :: 0 <= k < |sig| ==> BootstrapFieldOk(sig, m, k)
  }

  /** Element k has a supported type and its field number k + 1 no annotation. */
  predicate BootstrapFieldOk(sig: seq<JavaType>, m: FieldNumberToAtomDeclSet, k: nat)
    requires k < |sig|
  {
    BootstrapSupports(sig[k]) && k + 1 !in m
  }

  /** The bootstrap body: atom-level annotations fail first; then per element an
      unsupported type fails, else the value is pushed and a field annotation fails. */
  method WriteBootstrapMethodBody(sig: seq<JavaType>, m: FieldNumberToAtomDeclSet)
    returns (ret: int, stmts: seq<Stmt>)
    ensures ret == 0 || ret == 1
    ensures ret == 0 <==> BootstrapAccepts(sig, m)
    ensures ret == 0 ==> stmts == [SetAtomId] + Pushes(sig, |sig|)
  {
    stmts := [SetAtomId];
    if AtomIdFieldNumber in m {
      return 1, stmts;
    }
    var argIndex := 1;
    for i := 0 to |sig|
      invariant argIndex == i + 1
      invariant forall k :: 0 <= k < i ==> BootstrapFieldOk(sig, m, k)
      invariant stmts == [SetAtomId] + Pushes(sig, i)
    {
      var t := sig[i];
      if !BootstrapSupports(t) {
        assert !BootstrapFieldOk(sig, m, i);
        return 1, stmts;
      }
      stmts := stmts + [PushValue(argIndex, t)];
      if argIndex in m {
        assert !BootstrapFieldOk(sig, m, i);
        return 1, stmts;
      }
      argIndex := argIndex + 1;
    }
    ret := 0;
  }

  /** SignatureInfoMap entry: a signature and the annotations of its atoms. */
  datatype SignatureInfo = SignatureInfo(signature: seq<JavaType>, fieldAnnotations: FieldNumberToAtomDeclSet)

  predicate AllFiled(infos: seq<SignatureInfo>)
  {
    forall i :: 0 <= i < |infos| ==> AnnotationsFiled(infos[i].fieldAnnotations)
  }

  /** Whether the stats_write method of a signature can be written, by backend. */
  predicate StatsWriteAccepts(info: SignatureInfo, minApiLevel: int, bootstrap: bool)
  {
    var sig := info.signature;
    if bootstrap then BootstrapAccepts(sig, info.fieldAnnotations)
    else if minApiLevel == ApiQ then forall k :: 0 <= k < |sig| ==> CompatSupports(sig[k])
    else forall k :: 0 <= k < |sig| ==> AStatsEventSupports(sig[k], minApiLevel)
  }

  /** The body of a stats_write method that was written. */
  function StatsWriteBody(info: SignatureInfo, minApiLevel: int, bootstrap: bool): seq<Stmt>
    requires AnnotationsFiled(info.fieldAnnotations)
  {
    if bootstrap then [SetAtomId] + Pushes(info.signature, |info.signature|)
    else EventBody(info.signature, info.fieldAnnotations, minApiLevel)
  }

  /** write_native_stats_write_methods: one stats_write per signature, in map order,
      with the bootstrap body, the API Q body or the AStatsEvent body; the first
      signature that cannot be written ends the loop with 1. */
  method WriteNativeStatsWriteMethods(infos: seq<SignatureInfo>, minApiLevel: int, bootstrap: bool)
    returns (ret: int, bodies: seq<seq<Stmt>>)
    requires AllFiled(infos)
    ensures ret == 0 || ret == 1
    ensures ret == 0 <==> forall i :: 0 <= i < |infos| ==> StatsWriteAccepts(infos[i], minApiLevel, bootstrap)
    ensures |bodies| <= |infos|
    ensures forall i :: 0 <= i < |bodies| ==> bodies[i] == StatsWriteBody(infos[i], minApiLevel, bootstrap)
    ensures ret == 0 ==> |bodies| == |infos|
    ensures ret != 0 ==> |bodies| < |infos| && !StatsWriteAccepts(infos[|bodies|], minApiLevel, bootstrap)
  {
    bodies := [];
    for i := 0 to |infos|
      invariant |bodies| == i
      invariant forall j :: 0 <= j < i ==> StatsWriteAccepts(infos[j], minApiLevel, bootstrap)
      invariant forall j :: 0 <= j < i ==> bodies[j] == StatsWriteBody(infos[j], minApiLevel, bootstrap)
    {
      var sig := infos[i].signature;
      var m := infos[i].fieldAnnotations;
      var r, stmts;
      if bootstrap {
        r, stmts := WriteBootstrapMethodBody(sig, m);
      } else if minApiLevel == ApiQ {
        r, stmts := WriteCompatMethodBody(sig, m, minApiLevel);
      } else {
        r, stmts := WriteNativeMethodBody(sig, m, minApiLevel);
      }
      if r != 0 {
        return r, bodies;
      }
      bodies := bodies + [stmts];
    }
    ret := 0;
  }

  /** Every element of sig has a type the AStatsEvent body writes. */
  predicate EventSupportsAll(sig: seq<JavaType>, minApiLevel: int)
  {
    forall k :: 0 <= k < |sig| ==> AStatsEventSupports(sig[k], minApiLevel)
  }

  /** write_native_build_stats_event_methods: one addAStatsEvent per pulled signature
      with the AStatsEvent body; the first that fails ends the loop with 1. */
  method WriteBuildStatsEventMethods(infos: seq<SignatureInfo>, minApiLevel: int)
    returns (ret: int, bodies: seq<seq<Stmt>>)
    requires AllFiled(infos)
    ensures ret == 0 || ret == 1
    ensures ret == 0 <==> forall i, k :: 0 <= i < |infos| && 0 <= k < |infos[i].signature| ==>
      AStatsEventSupports(infos[i].signature[k], minApiLevel)
    ensures |bodies| <= |infos|
    ensures forall i :: 0 <= i < |bodies| ==> bodies[i] == EventBody(infos[i].signature, infos[i].fieldAnnotations, minApiLevel)
    ensures ret == 0 ==> |bodies| == |infos|
    ensures ret != 0 ==> |bodies| < |infos|
    ensures ret != 0 ==> !EventSupportsAll(infos[|bodies|].signature, minApiLevel)
  {
    bodies := [];
    for i := 0 to |infos|
      invariant |bodies| == i
      invariant forall j, k :: 0 <= j < i && 0 <= k < |infos[j].signature| ==>
        AStatsEventSupports(infos[j].signature[k], minApiLevel)
      invariant forall j :: 0 <= j < i ==> bodies[j] == EventBody(infos[j].signature, infos[j].fieldAnnotations, minApiLevel)
    {
      var r, stmts := WriteNativeMethodBody(infos[i].signature, infos[i].fieldAnnotations, minApiLevel);
      if r != 0 {
        return r, bodies;
      }
      bodies := bodies + [stmts];
    }
    ret := 0;
  }

  // ---------------------------------------------------------------------------
  // Non-chained wrappers.

  /** The signature a non-chained wrapper delegates to: the first two arguments (uid
      and tag) become one attribution chain, the rest follow unchanged. */
  function NonChainedSignature(sig: seq<JavaType>): (r: seq<JavaType>)
    requires |sig| >= 2
    ensures |r| == |sig| - 1
    ensures r[0] == AttributionChain && r[1..] == sig[2..]
  {
    [AttributionChain] + sig[2..]
  }

  /** One stats_write_non_chained wrapper: its own parameter groups, the one-node chain
      it builds from arg1 and arg2 (the first and the last chain field), and the
      argument groups of the call. */
  datatype NonChainedMethod = NonChainedMethod(
    params: seq<seq<Param>>,
    uidLocal: (string, CallArg),
    tagLocal: (string, CallArg),
    call: seq<seq<CallArg>>)

  /** write_native_stats_write_non_chained_methods, for one signature. */
  method WriteNonChainedMethod(sig: seq<JavaType>, chain: seq<AtomField>) returns (method_: NonChainedMethod)
    requires |sig| >= 2 && |chain| >= 1
    ensures IsNonChainedMethodOf(method_, sig, chain)
  {
    var params := WriteNativeMethodSignature(sig, chain);
    var newSignature := [AttributionChain];
    newSignature := newSignature + sig[2..];
    var call := WriteNativeMethodCall(newSignature, chain, 2);
    assert newSignature == NonChainedSignature(sig);
    assert params == SignatureGroups(sig, ChainParams(chain, |chain|), 1);
    assert call == CallGroups(newSignature, ChainArgs(chain, |chain|), 2);
    method_ := NonChainedMethod(params, (chain[0].name, ArgRef(1)), (chain[|chain| - 1].name, ArgRef(2)), call);
  }

  /** The wrapper of sig: the signature's own parameters, the one-node chain bound to
      arg1 and arg2, and a call of the delegate signature numbered from 2 on. */
  predicate IsNonChainedMethodOf(m: NonChainedMethod, sig: seq<JavaType>, chain: seq<AtomField>)
    requires |sig| >= 2 && |chain| >= 1
  {
    && m.params == SignatureGroups(sig, ChainParams(chain, |chain|), 1)
    && m.uidLocal == (chain[0].name, ArgRef(1))
    && m.tagLocal == (chain[|chain| - 1].name, ArgRef(2))
    && m.call == CallGroups(NonChainedSignature(sig), ChainArgs(chain, |chain|), 2)
  }

  /** The delegate call forwards faithfully: it has one group fewer than the wrapper
      has parameter groups; its first group passes the chain parameters on, and every
      later group passes on the wrapper's parameters of the element after it, under
      the same number. */
  lemma NonChainedCallForwards(sig: seq<JavaType>, chainParams: seq<Param>)
    requires |sig| >= 2
    ensures |CallGroups(NonChainedSignature(sig), EraseAll(chainParams), 2)| == |SignatureGroups(sig, chainParams, 1)| - 1
    ensures CallGroups(NonChainedSignature(sig), EraseAll(chainParams), 2)[0] == EraseAll(chainParams)
    ensures forall k :: 1 <= k < |sig| - 1 ==>
      CallGroups(NonChainedSignature(sig), EraseAll(chainParams), 2)[k] == EraseAll(SignatureGroups(sig, chainParams, 1)[k + 1])
  {
    var ns := NonChainedSignature(sig);
    forall k | 1 <= k < |sig| - 1
      ensures CallGroups(ns, EraseAll(chainParams), 2)[k] == EraseAll(SignatureGroups(sig, chainParams, 1)[k + 1])
    {
      assert ns[k] == sig[k + 1];
      ElementArgsErase(sig[k + 1], 2 + k, chainParams);
    }
  }

  /** A written wrapper forwards faithfully: the call's first group passes on the chain
      parameters, and its group k >= 1 passes on the wrapper's parameter group k + 1. */
  lemma NonChainedMethodForwards(m: NonChainedMethod, sig: seq<JavaType>, chain: seq<AtomField>)
    requires |sig| >= 2 && |chain| >= 1 && IsNonChainedMethodOf(m, sig, chain)
    ensures |m.call| == |m.params| - 1
    ensures m.call[0] == EraseAll(ChainParams(chain, |chain|))
    ensures forall k :: 1 <= k < |m.call| ==> m.call[k] == EraseAll(m.params[k + 1])
  {
    var cp := ChainParams(chain, |chain|);
    ChainArgsErase(chain, |chain|);
    NonChainedCallForwards(sig, cp);
  }

  /** write_native_stats_write_non_chained_methods: one wrapper per signature; it
      cannot fail. */
  method WriteNonChainedMethods(sigs: seq<seq<JavaType>>, chain: seq<AtomField>) returns (methods: seq<NonChainedMethod>)
    requires forall i :: 0 <= i < |sigs| ==> |sigs[i]| >= 2
    requires |chain| >= 1
    ensures |methods| == |sigs|
    ensures forall i :: 0 <= i < |sigs| ==> IsNonChainedMethodOf(methods[i], sigs[i], chain)
  {
    methods := [];
    for i := 0 to |sigs|
      invariant |methods| == i
      invariant forall j :: 0 <= j < i ==> IsNonChainedMethodOf(methods[j], sigs[j], chain)
    {
      var w := WriteNonChainedMethod(sigs[i], chain);
      methods := methods + [w];
    }
  }

  // ---------------------------------------------------------------------------
  // Vendor atoms.

  /** The vendor builder succeeds: every element after the first (the reverse domain
      name, which the builder skips) has a type it writes. */
  predicate VendorAccepts(sig: seq<JavaType>, minApiLevel: int)
  {
    forall k :: 1 <= k < |sig| ==> VendorSupports(sig[k], minApiLevel)
  }

  /** write_native_build_vendor_atom_methods, for one signature: `values` gets
      |sig| - 1 slots and argument argIndex = 2..|sig| fills values[argIndex - 2].
      Field annotations are only reported, never written. */
  method WriteVendorBuildMethod(sig: seq<JavaType>, minApiLevel: int)
    returns (ret: int, valuesCount: int, stmts: seq<Stmt>)
    ensures ret == 0 || ret == 1
    ensures valuesCount == |sig| - 1
    ensures ret == 0 <==> VendorAccepts(sig, minApiLevel)
    ensures ret == 0 ==> |stmts| == if |sig| == 0 then 0 else |sig| - 1
    ensures ret == 0 ==> forall v :: 0 <= v < |stmts| ==> stmts[v] == SetValue(v, v + 2, sig[v + 1])
  {
    valuesCount := |sig| - 1;
    stmts := [];
    var argIndex := 2;
    while argIndex <= |sig|
      invariant 2 <= argIndex <= |sig| + 1 || (|sig| == 0 && argIndex == 2)
      invariant |stmts| == argIndex - 2
      invariant forall k :: 1 <= k < argIndex - 1 ==> VendorSupports(sig[k], minApiLevel)
      invariant forall v :: 0 <= v < |stmts| ==> stmts[v] == SetValue(v, v + 2, sig[v + 1])
      decreases |sig| + 1 - argIndex
    {
      var argType := sig[argIndex - 1];
      var atomValueIndex := argIndex - 2;
      if minApiLevel < ApiT && IsRepeated(argType) {
        return 1, valuesCount, stmts;
      }
      if argType.AttributionChain? || argType.Object? || argType.Double? || argType.KeyValuePair? {
        return 1, valuesCount, stmts;
      }
      stmts := stmts + [SetValue(atomValueIndex, argIndex, argType)];
      argIndex := argIndex + 1;
    }
    ret := 0;
  }

  /** Vendor value indexing: every slot 0..|sig|-2 of `values` is written exactly once,
      and no write falls outside the vector. */
  lemma VendorSlotsWrittenOnce(sig: seq<JavaType>, stmts: seq<Stmt>)
    requires |sig| >= 1 && |stmts| == |sig| - 1
    requires forall v :: 0 <= v < |stmts| ==> stmts[v] == SetValue(v, v + 2, sig[v + 1])
    ensures forall i :: 0 <= i < |stmts| ==> 0 <= stmts[i].valueIndex < |sig| - 1
    ensures forall slot :: 0 <= slot < |sig| - 1 ==> stmts[slot].valueIndex == slot
    ensures forall i, j :: 0 <= i < |stmts| && 0 <= j < |stmts| && stmts[i].valueIndex == stmts[j].valueIndex ==> i == j
  {
  }

  /** write_stats_log_cpp_vendor's builder loop: the first signature the vendor builder
      rejects ends it with 1. */
  method WriteVendorBuildMethods(sigs: seq<seq<JavaType>>, minApiLevel: int) returns (ret: int)
    ensures ret == 0 || ret == 1
    ensures ret == 0 <==> forall i :: 0 <= i < |sigs| ==> VendorAccepts(sigs[i], minApiLevel)
  {
    for i := 0 to |sigs|
      invariant forall j :: 0 <= j < i ==> VendorAccepts(sigs[j], minApiLevel)
    {
      var r, _, _ := WriteVendorBuildMethod(sigs[i], minApiLevel);
      if r != 0 {
        return r;
      }
    }
    ret := 0;
  }

  // ---------------------------------------------------------------------------
  // The C++ file.

  /** The headers the generated .cpp includes after its own header. */
  datatype Header =
    | StatsEventCompatH | StatsEventH | StatsAnnotationsH | StatsPullAtomCallbackH
    | StatsBootstrapAtomClientH | StatsBootstrapAtomH | String16H

  /** The include selection of write_stats_log_cpp. */
  function NativeIncludes(bootstrap: bool, minApiLevel: int, hasPulledAtoms: bool): (hs: seq<Header>)
    ensures StatsEventCompatH in hs <==> !bootstrap && minApiLevel == ApiQ
    ensures StatsEventH in hs <==> !bootstrap && minApiLevel != ApiQ
    ensures StatsAnnotationsH in hs <==> !bootstrap && minApiLevel > ApiR
    ensures StatsPullAtomCallbackH in hs <==> !bootstrap && minApiLevel > ApiQ && hasPulledAtoms
    ensures StatsBootstrapAtomClientH in hs <==> bootstrap
    ensures StatsBootstrapAtomH in hs <==> bootstrap
    ensures String16H in hs <==> bootstrap
  {
    if bootstrap then [StatsBootstrapAtomClientH, StatsBootstrapAtomH, String16H]
    else
      [if minApiLevel == ApiQ then StatsEventCompatH else StatsEventH]
      + (if minApiLevel > ApiR then [StatsAnnotationsH] else [])
      + (if minApiLevel > ApiQ && hasPulledAtoms then [StatsPullAtomCallbackH] else [])
  }

  /** write_stats_log_header emits the annotation constants itself up to API R. */
  predicate HeaderDefinesAnnotationConstants(minApiLevel: int)
  {
    minApiLevel <= ApiR
  }

  /** Every annotation constant the generated .cpp names is declared exactly once: without
      a prefix by the generated header up to API R, with the ASTATSLOG_ prefix by
      stats_annotations.h above it. */
  lemma AnnotationConstantsResolve(minApiLevel: int, hasPulledAtoms: bool)
    ensures ConstantPrefix(minApiLevel) == "" <==> HeaderDefinesAnnotationConstants(minApiLevel)
    ensures ConstantPrefix(minApiLevel) == "ASTATSLOG_"
      <==> StatsAnnotationsH in NativeIncludes(false, minApiLevel, hasPulledAtoms)
    ensures HeaderDefinesAnnotationConstants(minApiLevel)
      <==> StatsAnnotationsH !in NativeIncludes(false, minApiLevel, hasPulledAtoms)
  {
  }

  /** The Atoms of collation, as far as the native writer reads them. */
  datatype Atoms = Atoms(
    signatureInfoMap: seq<SignatureInfo>,
    nonChainedSignatures: seq<seq<JavaType>>,
    pulledAtomsSignatureInfoMap: seq<SignatureInfo>,
    decls: seq<AtomDecl>)

  predicate WellFormedAtoms(atoms: Atoms)
  {
    AllFiled(atoms.signatureInfoMap) && AllFiled(atoms.pulledAtomsSignatureInfoMap)
    && forall i :: 0 <= i < |atoms.nonChainedSignatures| ==> |atoms.nonChainedSignatures[i]| >= 2
  }

  /** Whether write_stats_log_cpp returns 0. */
  predicate CppAccepts(atoms: Atoms, minApiLevel: int, bootstrap: bool)
  {
    (forall i :: 0 <= i < |atoms.signatureInfoMap| ==> StatsWriteAccepts(atoms.signatureInfoMap[i], minApiLevel, bootstrap))
    && (!bootstrap ==>
          forall i, k :: 0 <= i < |atoms.pulledAtomsSignatureInfoMap| && 0 <= k < |atoms.pulledAtomsSignatureInfoMap[i].signature| ==>
            AStatsEventSupports(atoms.pulledAtomsSignatureInfoMap[i].signature[k], minApiLevel))
  }

  /** write_stats_log_cpp: the includes, then the stats_write methods; outside bootstrap
      also the non-chained wrappers and the pulled-atom builders. It returns the first
      nonzero code. */
  method WriteStatsLogCpp(atoms: Atoms, chain: seq<AtomField>, minApiLevel: int, bootstrap: bool)
    returns (ret: int, includes: seq<Header>)
    requires WellFormedAtoms(atoms) && |chain| >= 1
    ensures includes == NativeIncludes(bootstrap, minApiLevel, |atoms.pulledAtomsSignatureInfoMap| > 0)
    ensures ret == 0 || ret == 1
    ensures ret == 0 <==> CppAccepts(atoms, minApiLevel, bootstrap)
  {
    includes := NativeIncludes(bootstrap, minApiLevel, |atoms.pulledAtomsSignatureInfoMap| > 0);
    var r, _ := WriteNativeStatsWriteMethods(atoms.signatureInfoMap, minApiLevel, bootstrap);
    if r != 0 {
      return r, includes;
    }
    if !bootstrap {
      var _ := WriteNonChainedMethods(atoms.nonChainedSignatures, chain);
      var pulledRet, _ := WriteBuildStatsEventMethods(atoms.pulledAtomsSignatureInfoMap, minApiLevel);
      if pulledRet != 0 {
        return pulledRet, includes;
      }
    }
    ret := 0;
  }

  // ---------------------------------------------------------------------------
  // Vendor header enums.

  /** One `NAME = value` line; all but the last carry a comma. */
  datatype EnumEntry = EnumEntry(name: string, value: int, comma: bool)

  datatype EnumDef = EnumDef(typeName: string, entries: seq<EnumEntry>)

  function EnumEntries(values: seq<(int, string)>): (es: seq<EnumEntry>)
    ensures |es| == |values|
    ensures forall k :: 0 <= k < |es| ==> es[k].name == values[k].1 && es[k].value == values[k].0
    ensures forall k :: 0 <= k < |es| ==> (es[k].comma <==> k != |values| - 1)
  {
    seq(|values|, k requires 0 <= k < |values| => EnumEntry(values[k].1, values[k].0, k != |values| - 1))
  }

  /** The value loop of one enum: every value, in key order, with a comma unless it is
      the last. */
  method WriteEnumEntries(values: seq<(int, string)>) returns (entries: seq<EnumEntry>)
    ensures entries == EnumEntries(values)
  {
    entries := [];
    var i := 0;
    while i < |values|
      invariant 0 <= i <= |values|
      invariant entries == EnumEntries(values)[..i]
    {
      var comma := i != |values| - 1;
      entries := entries + [EnumEntry(values[i].1, values[i].0, comma)];
      i := i + 1;
    }
  }

  predicate IsEnumField(f: AtomField)
  {
    f.javaType == Enum || f.javaType == EnumArray
  }

  function TypeNames(fs: seq<AtomField>): set<string>
  {
    set k | 0 <= k < |fs| :: fs[k].enumTypeName
  }

  /** The first enum field of each enum type among the first n fields, in field order. */
  function DistinctEnums(fields: seq<AtomField>, n: nat): seq<AtomField>
    requires n <= |fields|
  {
    if n == 0 then []
    else
      var prev := DistinctEnums(fields, n - 1);
      if IsEnumField(fields[n - 1]) && fields[n - 1].enumTypeName !in TypeNames(prev) then prev + [fields[n - 1]]
      else prev
  }

  function EnumDefs(fs: seq<AtomField>): (defs: seq<EnumDef>)
    ensures |defs| == |fs|
  {
    seq(|fs|, k requires 0 <= k < |fs| => EnumDef(fs[k].enumTypeName, EnumEntries(fs[k].enumValues)))
  }

  /** The enum part of write_stats_log_header_vendor for one atom: an enum type used by
      several fields is defined once, from its first field; the class around the
      definitions is opened with the first one. */
  method WriteAtomEnums(atom: AtomDecl) returns (classOpened: bool, defs: seq<EnumDef>)
    ensures defs == EnumDefs(DistinctEnums(atom.fields, |atom.fields|))
    ensures classOpened <==> |defs| > 0
  {
    var processedEnums: set<string> := {};
    defs := [];
    classOpened := false;
    ghost var seen: seq<AtomField> := [];
    for i := 0 to |atom.fields|
      invariant seen == DistinctEnums(atom.fields, i)
      invariant processedEnums == TypeNames(seen)
      invariant defs == EnumDefs(seen)
      invariant classOpened <==> |defs| > 0
    {
      var field := atom.fields[i];
      if field.javaType == Enum || field.javaType == EnumArray {
        if field.enumTypeName in processedEnums {
          continue;
        }
        if processedEnums == {} {
          classOpened := true;
        }
        processedEnums := processedEnums + {field.enumTypeName};
        var entries := WriteEnumEntries(field.enumValues);
        defs := defs + [EnumDef(field.enumTypeName, entries)];
        assert TypeNames(seen + [field]) == TypeNames(seen) + {field.enumTypeName} by {
          assert forall k :: 0 <= k < |seen| ==> (seen + [field])[k] == seen[k];
          assert (seen + [field])[|seen|] == field;
        }
        seen := seen + [field];
      }
    }
  }

  /** Every distinct enum field has the enum type of an enum field. */
  lemma {:induction false} DistinctEnumsAreEnumFields(fields: seq<AtomField>, n: nat)
    requires n <= |fields|
    ensures forall j :: 0 <= j < |DistinctEnums(fields, n)| ==>
      DistinctEnums(fields, n)[j] in fields[..n] && IsEnumField(DistinctEnums(fields, n)[j])
  {
    if n > 0 {
      DistinctEnumsAreEnumFields(fields, n - 1);
      assert fields[..n] == fields[..n - 1] + [fields[n - 1]];
    }
  }

  /** No enum type is defined twice, and every enum type of an enum field is defined. */
  lemma {:induction false} DistinctEnumsCoverOnce(fields: seq<AtomField>, n: nat)
    requires n <= |fields|
    ensures forall i, j :: 0 <= i < j < |DistinctEnums(fields, n)| ==>
      DistinctEnums(fields, n)[i].enumTypeName != DistinctEnums(fields, n)[j].enumTypeName
    ensures forall k :: 0 <= k < n && IsEnumField(fields[k]) ==> fields[k].enumTypeName in TypeNames(DistinctEnums(fields, n))
  {
    if n > 0 {
      DistinctEnumsCoverOnce(fields, n - 1);
      var prev := DistinctEnums(fields, n - 1);
      var cur := DistinctEnums(fields, n);
      if IsEnumField(fields[n - 1]) && fields[n - 1].enumTypeName !in TypeNames(prev) {
        assert cur == prev + [fields[n - 1]];
        assert forall j :: 0 <= j < |prev| ==> cur[j] == prev[j];
        forall i | 0 <= i < |prev|
          ensures cur[i].enumTypeName != cur[|prev|].enumTypeName
        {
          assert prev[i].enumTypeName in TypeNames(prev);
        }
        assert TypeNames(prev) <= TypeNames(cur);
        assert cur[|prev|].enumTypeName in TypeNames(cur);
      }
    }
  }
}
