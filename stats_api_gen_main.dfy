// The decision logic of the stats-log generator's driver: which atoms go into which
// AtomsInfo lookup table, the namespace wrapping of the generated files, the atom-code
// constants of the header, and the legacy JNI name and signature mangling.
module StatsApiGenMain {
  import opened StatsModel
  import opened ExpressUtils

  // ---------------------------------------------------------------------------
  // AtomsInfo tables.

  /** The atoms among the first n of decls that satisfy pick, in set order. */
  function Picked(decls: seq<AtomDecl>, n: nat, pick: AtomDecl -> bool): (w: seq<AtomDecl>)
    requires n <= |decls|
    ensures |w| <= n
  {
    if n == 0 then []
    else if pick(decls[n - 1]) then Picked(decls, n - 1, pick) + [decls[n - 1]]
    else Picked(decls, n - 1, pick)
  }

  /** A picked table holds each atom as often as the atoms do when it is picked, and
      never otherwise. */
  lemma {:induction false} PickedCount(decls: seq<AtomDecl>, n: nat, pick: AtomDecl -> bool, a: AtomDecl)
    requires n <= |decls|
    ensures multiset(Picked(decls, n, pick))[a] == if pick(a) then multiset(decls[..n])[a] else 0
  {
    if n > 0 {
      PickedCount(decls, n - 1, pick, a);
      assert decls[..n] == decls[..n - 1] + [decls[n - 1]];
    }
  }

  /** Picking keeps everything when every atom qualifies, and drops at least one atom
      otherwise. */
  lemma {:induction false} PickedSize(decls: seq<AtomDecl>, n: nat, pick: AtomDecl -> bool)
    requires n <= |decls|
    ensures (forall k :: 0 <= k < n ==> pick(decls[k])) ==> Picked(decls, n, pick) == decls[..n]
    ensures (exists k :: 0 <= k < n && !pick(decls[k])) ==> |Picked(decls, n, pick)| < n
  {
    if n > 0 {
      PickedSize(decls, n - 1, pick);
      assert decls[..n] == decls[..n - 1] + [decls[n - 1]];
      if exists k :: 0 <= k < n && !pick(decls[k]) {
        var k :| 0 <= k < n && !pick(decls[k]);
        if k < n - 1 {
          assert |Picked(decls, n - 1, pick)| < n - 1;
        }
      }
    }
  }

  predicate HasChainField(a: AtomDecl)
  {
    exists k :: 0 <= k < |a.fields| && a.fields[k].javaType == AttributionChain
  }

  predicate IsWhitelisted(a: AtomDecl)
  {
    a.whitelisted
  }

  predicate HasUidField(a: AtomDecl)
  {
    a.uidField != 0
  }

  predicate HasStateOptions(a: AtomDecl)
  {
    |a.primaryFields| != 0 || a.exclusiveField != 0
  }

  /** One options[code].push_back(field) per binary field of the first n atoms. */
  function BinaryPushes(decls: seq<AtomDecl>, n: nat): seq<(AtomDecl, int)>
    requires n <= |decls|
  {
    if n == 0 then []
    else BinaryPushes(decls, n - 1) + PushesOf(decls[n - 1])
  }

  /** The pushes for one atom, one per binary field. */
  function PushesOf(a: AtomDecl): seq<(AtomDecl, int)>
  {
    seq(|a.binaryFields|, j requires 0 <= j < |a.binaryFields| => (a, a.binaryFields[j]))
  }

  /** The fixed kTruncatingTimestampAtomBlackList names, in std::set order. */
  const TruncatingAtomNames: seq<string> := [
    "audio_state_changed", "call_state_changed", "mobile_bytes_transfer",
    "mobile_bytes_transfer_by_fg_bg", "mobile_radio_power_state_changed",
    "phone_signal_strength_changed"]

  /** The tables of write_atoms_info_cpp. Each uid, state-options entry carries its
      atom, whose uidField, primaryFields and exclusiveField are the written values. */
  datatype AtomsInfo = AtomsInfo(
    truncatingBlackList: seq<string>,
    chainAtoms: seq<AtomDecl>,
    whitelistedAtoms: seq<AtomDecl>,
    uidAtoms: seq<AtomDecl>,
    stateAtoms: seq<AtomDecl>,
    bytesPushes: seq<(AtomDecl, int)>)

  /** The chain table of write_atoms_info_cpp: an atom is taken at its first chain
      field and the field loop is left there. */
  method ChainAtomsTable(decls: seq<AtomDecl>) returns (chainAtoms: seq<AtomDecl>)
    ensures chainAtoms == Picked(decls, |decls|, HasChainField)
  {
    chainAtoms := [];
    for idx := 0 to |decls|
      invariant chainAtoms == Picked(decls, idx, HasChainField)
    {
      var atom := decls[idx];
      var j := 0;
      while j < |atom.fields|
        invariant 0 <= j <= |atom.fields|
        invariant forall l :: 0 <= l < j ==> atom.fields[l].javaType != AttributionChain
        invariant chainAtoms == Picked(decls, idx, HasChainField)
      {
        if atom.fields[j].javaType == AttributionChain {
          assert HasChainField(atom);
          chainAtoms := chainAtoms + [atom];
          break;
        }
        j := j + 1;
      }
    }
  }

  /** kWhitelistedAtoms. */
  method WhitelistTable(decls: seq<AtomDecl>) returns (whitelisted: seq<AtomDecl>)
    ensures whitelisted == Picked(decls, |decls|, IsWhitelisted)
  {
    whitelisted := [];
    for idx := 0 to |decls|
      invariant whitelisted == Picked(decls, idx, IsWhitelisted)
    {
      if decls[idx].whitelisted {
        whitelisted := whitelisted + [decls[idx]];
      }
    }
  }

  /** getAtomUidField: atoms with uidField 0 are skipped. */
  method UidFieldTable(decls: seq<AtomDecl>) returns (uidAtoms: seq<AtomDecl>)
    ensures uidAtoms == Picked(decls, |decls|, HasUidField)
  {
    uidAtoms := [];
    for idx := 0 to |decls|
      invariant uidAtoms == Picked(decls, idx, HasUidField)
    {
      if decls[idx].uidField == 0 {
        continue;
      }
      uidAtoms := uidAtoms + [decls[idx]];
    }
  }

  /** getStateAtomFieldOptions: atoms with neither primary nor exclusive fields are
      skipped. */
  method StateOptionsTable(decls: seq<AtomDecl>) returns (stateAtoms: seq<AtomDecl>)
    ensures stateAtoms == Picked(decls, |decls|, HasStateOptions)
  {
    stateAtoms := [];
    for idx := 0 to |decls|
      invariant stateAtoms == Picked(decls, idx, HasStateOptions)
    {
      if |decls[idx].primaryFields| == 0 && decls[idx].exclusiveField == 0 {
        continue;
      }
      stateAtoms := stateAtoms + [decls[idx]];
    }
  }

  /** getBinaryFieldAtoms: one push per binary field. */
  method BytesFieldTable(decls: seq<AtomDecl>) returns (pushes: seq<(AtomDecl, int)>)
    ensures pushes == BinaryPushes(decls, |decls|)
  {
    pushes := [];
    for idx := 0 to |decls|
      invariant pushes == BinaryPushes(decls, idx)
    {
      var atom := decls[idx];
      if |atom.binaryFields| == 0 {
        continue;
      }
      ghost var before := pushes;
      for j := 0 to |atom.binaryFields|
        invariant pushes == before + PushesOf(atom)[..j]
      {
        assert PushesOf(atom)[..j + 1] == PushesOf(atom)[..j] + [(atom, atom.binaryFields[j])];
        pushes := pushes + [(atom, atom.binaryFields[j])];
      }
      assert PushesOf(atom)[..|atom.binaryFields|] == PushesOf(atom);
    }
  }

  /** write_atoms_info_cpp: the fixed blacklist, then one pass over the atoms per
      table. */
  method WriteAtomsInfoCpp(decls: seq<AtomDecl>) returns (info: AtomsInfo)
    ensures info.truncatingBlackList == TruncatingAtomNames
    ensures info.chainAtoms == Picked(decls, |decls|, HasChainField)
    ensures info.whitelistedAtoms == Picked(decls, |decls|, IsWhitelisted)
    ensures info.uidAtoms == Picked(decls, |decls|, HasUidField)
    ensures info.stateAtoms == Picked(decls, |decls|, HasStateOptions)
    ensures info.bytesPushes == BinaryPushes(decls, |decls|)
  {
    var chainAtoms := ChainAtomsTable(decls);
    var whitelisted := WhitelistTable(decls);
    var uidAtoms := UidFieldTable(decls);
    var stateAtoms := StateOptionsTable(decls);
    var pushes := BytesFieldTable(decls);
    info := AtomsInfo(TruncatingAtomNames, chainAtoms, whitelisted, uidAtoms, stateAtoms, pushes);
  }

  /** The chain table holds each atom with a chain field as often as the atom set does
      (once), however many chain fields it has, and no other atom; likewise the uid
      table for uidField != 0, the state-options table for primary or exclusive fields,
      and the whitelist for the whitelisted flag. */
  lemma AtomsInfoMembership(decls: seq<AtomDecl>, a: AtomDecl)
    ensures multiset(Picked(decls, |decls|, HasChainField))[a] == if HasChainField(a) then multiset(decls)[a] else 0
    ensures multiset(Picked(decls, |decls|, HasUidField))[a] == if a.uidField != 0 then multiset(decls)[a] else 0
    ensures multiset(Picked(decls, |decls|, HasStateOptions))[a]
      == if |a.primaryFields| != 0 || a.exclusiveField != 0 then multiset(decls)[a] else 0
    ensures multiset(Picked(decls, |decls|, IsWhitelisted))[a] == if a.whitelisted then multiset(decls)[a] else 0
  {
    assert decls[..|decls|] == decls;
    PickedCount(decls, |decls|, HasChainField, a);
    PickedCount(decls, |decls|, HasUidField, a);
    PickedCount(decls, |decls|, HasStateOptions, a);
    PickedCount(decls, |decls|, IsWhitelisted, a);
  }

  /** The bytes table gets exactly one push per binary field of every atom. */
  lemma {:induction false} BinaryPushesExact(decls: seq<AtomDecl>, n: nat, a: AtomDecl, f: int)
    requires n <= |decls|
    ensures (a, f) in BinaryPushes(decls, n) <==> exists k :: 0 <= k < n && decls[k] == a && f in a.binaryFields
    ensures |BinaryPushes(decls, n)| == BinaryFieldCount(decls, n)
  {
    if n > 0 {
      BinaryPushesExact(decls, n - 1, a, f);
      var last := decls[n - 1];
      var tail := PushesOf(last);
      if last == a && f in a.binaryFields {
        var j :| 0 <= j < |a.binaryFields| && a.binaryFields[j] == f;
        assert tail[j] == (a, f);
      }
    }
  }

  function BinaryFieldCount(decls: seq<AtomDecl>, n: nat): nat
    requires n <= |decls|
  {
    if n == 0 then 0 else BinaryFieldCount(decls, n - 1) + |decls[n - 1].binaryFields|
  }

  /** In write_stats_log_cpp the AtomsInfo tables are written only for the default
      module. */
  method WriteAtomsInfoSection(decls: seq<AtomDecl>, moduleName: string) returns (info: Option<AtomsInfo>)
    ensures info.Some? <==> moduleName == DefaultModuleName
    ensures info.Some? ==> info.value.chainAtoms == Picked(decls, |decls|, HasChainField)
    ensures info.Some? ==> info.value.uidAtoms == Picked(decls, |decls|, HasUidField)
    ensures info.Some? ==> info.value.stateAtoms == Picked(decls, |decls|, HasStateOptions)
    ensures info.Some? ==> info.value.whitelistedAtoms == Picked(decls, |decls|, IsWhitelisted)
    ensures info.Some? ==> info.value.bytesPushes == BinaryPushes(decls, |decls|)
  {
    if moduleName == DefaultModuleName {
      var tables := WriteAtomsInfoCpp(decls);
      return Some(tables);
    }
    return None;
  }

  // ---------------------------------------------------------------------------
  // Namespaces.

  /** One line of namespace structure in a generated file. */
  datatype NamespaceLine = Open(name: string) | Close(name: string)

  function OpenLines(names: seq<string>): seq<NamespaceLine>
  {
    seq(|names|, k requires 0 <= k < |names| => Open(names[k]))
  }

  function CloseLines(names: seq<string>): seq<NamespaceLine>
  {
    seq(|names|, k requires 0 <= k < |names| => Close(names[k]))
  }

  function Reversed(s: seq<string>): (r: seq<string>)
    ensures |r| == |s|
    ensures forall k :: 0 <= k < |s| ==> r[k] == s[|s| - 1 - k]
  {
    if |s| == 0 then [] else [s[|s| - 1]] + Reversed(s[..|s| - 1])
  }

  /** write_namespace: one opening per comma-separated name, in order. */
  method WriteNamespace(cppNamespaces: string) returns (lines: seq<NamespaceLine>)
    ensures lines == OpenLines(SplitFrom(cppNamespaces, ",", 0))
  {
    var names := Split(cppNamespaces, ",");
    lines := [];
    for k := 0 to |names|
      invariant lines == OpenLines(names[..k])
    {
      lines := lines + [Open(names[k])];
    }
    assert names[..|names|] == names;
  }

  /** write_closing_namespace: one closing per name, walking the names backwards. */
  method WriteClosingNamespace(cppNamespaces: string) returns (lines: seq<NamespaceLine>)
    ensures lines == CloseLines(Reversed(SplitFrom(cppNamespaces, ",", 0)))
  {
    var names := Split(cppNamespaces, ",");
    lines := [];
    var k := |names|;
    while k > 0
      invariant 0 <= k <= |names|
      invariant |lines| == |names| - k
      invariant forall l :: 0 <= l < |lines| ==> lines[l] == Close(names[|names| - 1 - l])
    {
      k := k - 1;
      lines := lines + [Close(names[k])];
    }
  }

  /** Reading the lines with a stack of open namespaces (top last): an opening pushes,
      a closing must name the top and pops it; the file is balanced when the stack
      ends empty. */
  predicate Balanced(lines: seq<NamespaceLine>, stack: seq<string>)
    decreases |lines|
  {
    if |lines| == 0 then stack == []
    else match lines[0]
      case Open(n) => Balanced(lines[1..], stack + [n])
      case Close(n) => |stack| > 0 && stack[|stack| - 1] == n && Balanced(lines[1..], stack[..|stack| - 1])
  }

  lemma {:induction false} OpensPush(names: seq<string>, rest: seq<NamespaceLine>, stack: seq<string>)
    ensures Balanced(OpenLines(names) + rest, stack) == Balanced(rest, stack + names)
    decreases |names|
  {
    if |names| == 0 {
      assert OpenLines(names) + rest == rest;
      assert stack + names == stack;
    } else {
      var lines := OpenLines(names) + rest;
      assert lines[0] == Open(names[0]);
      assert lines[1..] == OpenLines(names[1..]) + rest;
      OpensPush(names[1..], rest, stack + [names[0]]);
      assert stack + [names[0]] + names[1..] == stack + names;
    }
  }

  lemma {:induction false} ClosesPop(names: seq<string>, stack: seq<string>)
    ensures Balanced(CloseLines(Reversed(names)), stack + names) == (stack == [])
    decreases |names|
  {
    if |names| == 0 {
      assert stack + names == stack;
    } else {
      var init := names[..|names| - 1];
      var lines := CloseLines(Reversed(names));
      assert lines[0] == Close(names[|names| - 1]);
      assert lines[1..] == CloseLines(Reversed(init));
      var st := stack + names;
      assert st[|st| - 1] == names[|names| - 1];
      assert st[..|st| - 1] == stack + init;
      ClosesPop(init, stack);
    }
  }

  /** The header and the source file open the namespaces and close them in reverse, so
      every closing names the innermost open namespace and none stays open. */
  lemma NamespacesBalanced(names: seq<string>)
    ensures Balanced(OpenLines(names) + CloseLines(Reversed(names)), [])
  {
    OpensPush(names, CloseLines(Reversed(names)), []);
    ClosesPop(names, []);
    assert [] + names == names;
  }

  // ---------------------------------------------------------------------------
  // Header constants.

  /** One constant of the header's atom-code enum. */
  datatype AtomConstant = AtomConstant(atomName: string, code: int, trailingComma: bool)

  /** The constants for the written atoms w out of total atoms: the comma is left out
      when the counter of written constants equals decls.size() - 1. */
  function ConstantsOf(w: seq<AtomDecl>, total: int): seq<AtomConstant>
  {
    seq(|w|, k requires 0 <= k < |w| => AtomConstant(w[k].name, w[k].code, k + 1 != total))
  }

  /** One constant per needed atom, in set order. */
  function AtomConstants(decls: seq<AtomDecl>, needed: AtomDecl -> bool): seq<AtomConstant>
  {
    ConstantsOf(Picked(decls, |decls|, needed), |decls|)
  }

  /** kMaxPushedAtomId over atoms: at least 2, else the largest code below the pulled
      range. */
  function MaxPushedAtomId(w: seq<AtomDecl>): (r: int)
    ensures r >= 2
    ensures forall k :: 0 <= k < |w| && w[k].code < PullAtomStartId ==> w[k].code <= r
    ensures r == 2 || exists k :: 0 <= k < |w| && w[k].code == r && r < PullAtomStartId
  {
    if |w| == 0 then 2
    else
      var m := MaxPushedAtomId(w[..|w| - 1]);
      assert forall k :: 0 <= k < |w| - 1 ==> w[..|w| - 1][k] == w[k];
      var c := w[|w| - 1].code;
      if c < PullAtomStartId && c > m then c else m
  }

  /** The constants loop of write_stats_log_header, with atom_needed_for_module as the
      needed parameter. */
  method WriteAtomConstants(decls: seq<AtomDecl>, needed: AtomDecl -> bool)
    returns (constants: seq<AtomConstant>, maxPushedAtomId: int)
    ensures constants == AtomConstants(decls, needed)
    ensures maxPushedAtomId == MaxPushedAtomId(Picked(decls, |decls|, needed))
  {
    var i := 0;
    maxPushedAtomId := 2;
    constants := [];
    for idx := 0 to |decls|
      invariant i == |Picked(decls, idx, needed)|
      invariant constants == ConstantsOf(Picked(decls, idx, needed), |decls|)
      invariant maxPushedAtomId == MaxPushedAtomId(Picked(decls, idx, needed))
    {
      var atom := decls[idx];
      if !needed(atom) {
        continue;
      }
      ghost var w := Picked(decls, idx, needed);
      assert (w + [atom])[..|w|] == w;
      var comma := i != |decls| - 1;
      assert ConstantsOf(w + [atom], |decls|) == ConstantsOf(w, |decls|) + [AtomConstant(atom.name, atom.code, comma)];
      constants := constants + [AtomConstant(atom.name, atom.code, comma)];
      if atom.code < PullAtomStartId && atom.code > maxPushedAtomId {
        maxPushedAtomId := atom.code;
      }
      i := i + 1;
    }
  }

  /** With every atom needed, exactly the last constant lacks its comma; when some atom
      is not needed for the module, fewer constants than atoms are written and every
      one keeps its comma. */
  lemma TrailingCommaRule(decls: seq<AtomDecl>, needed: AtomDecl -> bool)
    ensures (forall k :: 0 <= k < |decls| ==> needed(decls[k])) ==>
      forall k :: 0 <= k < |AtomConstants(decls, needed)| ==>
        (!AtomConstants(decls, needed)[k].trailingComma <==> k == |decls| - 1)
    ensures (exists k :: 0 <= k < |decls| && !needed(decls[k])) ==>
      forall k :: 0 <= k < |AtomConstants(decls, needed)| ==> AtomConstants(decls, needed)[k].trailingComma
  {
    assert decls[..|decls|] == decls;
    PickedSize(decls, |decls|, needed);
  }

  /** The header part write_stats_log_header decides: namespaces around the constants,
      and the AtomsInfo declarations with kMaxPushedAtomId for the default module. */
  datatype StatsLogHeader = StatsLogHeader(
    opens: seq<NamespaceLine>,
    constants: seq<AtomConstant>,
    maxPushedAtomId: Option<int>,
    closes: seq<NamespaceLine>)

  method WriteStatsLogHeader(decls: seq<AtomDecl>, needed: AtomDecl -> bool, moduleName: string, cppNamespace: string)
    returns (ret: int, header: StatsLogHeader)
    ensures ret == 0
    ensures header.opens == OpenLines(SplitFrom(cppNamespace, ",", 0))
    ensures header.constants == AtomConstants(decls, needed)
    ensures header.maxPushedAtomId.Some? <==> moduleName == DefaultModuleName
    ensures header.maxPushedAtomId.Some? ==> header.maxPushedAtomId.value == MaxPushedAtomId(Picked(decls, |decls|, needed))
    ensures header.closes == CloseLines(Reversed(SplitFrom(cppNamespace, ",", 0)))
  {
    var opens := WriteNamespace(cppNamespace);
    var constants, maxPushed := WriteAtomConstants(decls, needed);
    var maxDecl := if moduleName == DefaultModuleName then Some(maxPushed) else None;
    var closes := WriteClosingNamespace(cppNamespace);
    header := StatsLogHeader(opens, constants, maxDecl, closes);
    ret := 0;
  }

  // ---------------------------------------------------------------------------
  // JNI helpers (the legacy schema).

  function JniTypeName(t: JavaType): string
  {
    match t
    case Boolean => "jboolean"
    case Int => "jint"
    case Enum => "jint"
    case Long => "jlong"
    case Float => "jfloat"
    case Double => "jdouble"
    case String => "jstring"
    case ByteArray => "jbyteArray"
    case _ => "UNKNOWN"
  }

  function JniArrayTypeName(t: JavaType): string
  {
    match t
    case Int => "jintArray"
    case Float => "jfloatArray"
    case String => "jobjectArray"
    case _ => "UNKNOWN"
  }

  /** The JNI scalar names are known exactly for the eight scalar types and bytes, INT
      and ENUM sharing jint; array names exist only for INT, FLOAT and STRING. */
  lemma JniTypeNames(t: JavaType)
    ensures JniTypeName(t) != "UNKNOWN" <==>
      t.Boolean? || t.Int? || t.Enum? || t.Long? || t.Float? || t.Double? || t.String? || t.ByteArray?
    ensures JniArrayTypeName(t) != "UNKNOWN" <==> t.Int? || t.Float? || t.String?
    ensures JniTypeName(Int) == JniTypeName(Enum)
    ensures JniArrayTypeName(Enum) == "UNKNOWN"
  {
    match t
    case Boolean =>
    case Int =>
    case Enum =>
    case Long =>
    case Float =>
    case Double =>
    case String =>
    case ByteArray =>
    case _ =>
  }

  /** The concatenation of a list of strings. */
  function Concat(ts: seq<string>): string
  {
    if |ts| == 0 then "" else ts[0] + Concat(ts[1..])
  }

  lemma {:induction false} ConcatAppend(ts: seq<string>, t: string)
    ensures Concat(ts + [t]) == Concat(ts) + t
  {
    if |ts| == 0 {
      assert ts + [t] == [t];
      assert [t][1..] == [];
    } else {
      assert (ts + [t])[1..] == ts[1..] + [t];
      ConcatAppend(ts[1..], t);
    }
  }

  /** A vocabulary in which no word is a prefix of another, nor empty. */
  predicate PrefixFree(vocab: set<string>)
  {
    "" !in vocab && forall a, b :: a in vocab && b in vocab && a != b ==> !(a <= b)
  }

  lemma ConcatLength(ts: seq<string>)
    requires |ts| > 0
    ensures |Concat(ts)| >= |ts[0]|
  {
  }

  /** Of two words that begin the same string, the shorter is a prefix of the longer. */
  lemma SharedStart(a: string, x: string, b: string, y: string)
    requires a + x == b + y && |a| <= |b|
    ensures a <= b
  {
    assert a == (a + x)[..|a|];
    assert b[..|a|] == (b + y)[..|a|];
  }

  /** Over a prefix-free vocabulary a concatenation has one reading. */
  lemma {:induction false} ConcatInjective(xs: seq<string>, ys: seq<string>, vocab: set<string>)
    requires PrefixFree(vocab)
    requires forall i :: 0 <= i < |xs| ==> xs[i] in vocab
    requires forall i :: 0 <= i < |ys| ==> ys[i] in vocab
    requires Concat(xs) == Concat(ys)
    ensures xs == ys
    decreases |xs|
  {
    if |xs| == 0 {
      if |ys| > 0 {
        ConcatLength(ys);
      }
    } else if |ys| == 0 {
      ConcatLength(xs);
    } else {
      var a, b := xs[0], ys[0];
      var x, y := Concat(xs[1..]), Concat(ys[1..]);
      assert a + x == b + y;
      if |a| <= |b| {
        SharedStart(a, x, b, y);
      } else {
        SharedStart(b, y, a, x);
      }
      assert a == b;
      assert x == (a + x)[|a|..];
      assert y == (b + y)[|b|..];
      ConcatInjective(xs[1..], ys[1..], vocab);
      assert xs == [a] + xs[1..] && ys == [b] + ys[1..];
    }
  }

  /** The suffix jni_function_name appends for one signature element. */
  function JniSuffix(t: JavaType): string
  {
    match t
    case Boolean => "_boolean"
    case Int => "_int"
    case Enum => "_int"
    case Long => "_long"
    case Float => "_float"
    case Double => "_double"
    case String => "_String"
    case AttributionChain => "_AttributionChain"
    case KeyValuePair => "_KeyValuePairs"
    case ByteArray => "_bytes"
    case _ => "_UNKNOWN"
  }

  const JniSuffixWords: set<string> := {
    "_boolean", "_int", "_long", "_float", "_double", "_String", "_AttributionChain",
    "_KeyValuePairs", "_bytes", "_UNKNOWN"}

  /** The type a name suffix is read back as: ENUM as INT, every unnamed type as
      OBJECT. */
  function SuffixType(suffix: string): JavaType
  {
    if suffix == "_boolean" then Boolean
    else if suffix == "_int" then Int
    else if suffix == "_long" then Long
    else if suffix == "_float" then Float
    else if suffix == "_double" then Double
    else if suffix == "_String" then String
    else if suffix == "_AttributionChain" then AttributionChain
    else if suffix == "_KeyValuePairs" then KeyValuePair
    else if suffix == "_bytes" then ByteArray
    else Object
  }

  /** The classes of types jni_function_name tells apart. */
  function JniNameClass(t: JavaType): JavaType
  {
    match t
    case Boolean => t
    case Int => t
    case Enum => Int
    case Long => t
    case Float => t
    case Double => t
    case String => t
    case AttributionChain => t
    case KeyValuePair => t
    case ByteArray => t
    case _ => Object
  }

  lemma JniSuffixDecodes(t: JavaType)
    ensures JniSuffix(t) in JniSuffixWords
    ensures SuffixType(JniSuffix(t)) == JniNameClass(t)
    ensures JniSuffix(JniNameClass(t)) == JniSuffix(t)
  {
    match t
    case Boolean =>
    case Int =>
    case Enum =>
    case Long =>
    case Float =>
    case Double =>
    case String =>
    case AttributionChain =>
    case KeyValuePair =>
    case ByteArray =>
      assert JniSuffix(t)[2] == 'y';
    case _ =>
      assert JniSuffix(t)[1] == 'U';
  }

  /** Each suffix word is fixed by its second and third characters. */
  function JniWordByKey(c1: char, c2: char): string
  {
    if c1 == 'b' then (if c2 == 'o' then "_boolean" else "_bytes")
    else if c1 == 'i' then "_int"
    else if c1 == 'l' then "_long"
    else if c1 == 'f' then "_float"
    else if c1 == 'd' then "_double"
    else if c1 == 'S' then "_String"
    else if c1 == 'A' then "_AttributionChain"
    else if c1 == 'K' then "_KeyValuePairs"
    else "_UNKNOWN"
  }

  lemma JniWordKey(w: string)
    requires w in JniSuffixWords
    ensures |w| >= 3 && JniWordByKey(w[1], w[2]) == w
  {
  }

  lemma JniSuffixWordsArePrefixFree()
    ensures PrefixFree(JniSuffixWords)
  {
    forall a, b | a in JniSuffixWords && b in JniSuffixWords && a <= b
      ensures a == b
    {
      JniWordKey(a);
      JniWordKey(b);
      assert a[1] == b[1] && a[2] == b[2];
    }
  }

  function JniSuffixes(signature: seq<JavaType>): seq<string>
  {
    seq(|signature|, k requires 0 <= k < |signature| => JniSuffix(signature[k]))
  }

  /** jni_function_name: "StatsLog_" and the method name, then one suffix per
      signature element. */
  method JniFunctionName(methodName: string, signature: seq<JavaType>) returns (result: string)
    ensures result == "StatsLog_" + methodName + Concat(JniSuffixes(signature))
  {
    ghost var prefix := "StatsLog_" + methodName;
    ghost var suffixes := JniSuffixes(signature);
    ghost var written: string := "";
    result := "StatsLog_" + methodName;
    for k := 0 to |signature|
      invariant written == Concat(suffixes[..k])
      invariant result == prefix + written
    {
      assert suffixes[..k + 1] == suffixes[..k] + [suffixes[k]];
      ConcatAppend(suffixes[..k], suffixes[k]);
      AppendAssociates(prefix, written, suffixes[k]);
      result := result + JniSuffix(signature[k]);
      written := written + suffixes[k];
    }
    assert suffixes[..|signature|] == suffixes;
  }

  /** Two signatures get the same JNI function name exactly when they have the same
      length and agree element by element up to INT/ENUM and up to the types named
      _UNKNOWN. */
  lemma JniFunctionNamesDistinguish(methodName: string, s1: seq<JavaType>, s2: seq<JavaType>)
    ensures "StatsLog_" + methodName + Concat(JniSuffixes(s1)) == "StatsLog_" + methodName + Concat(JniSuffixes(s2))
      <==> |s1| == |s2| && forall k :: 0 <= k < |s1| ==> JniNameClass(s1[k]) == JniNameClass(s2[k])
  {
    var p := "StatsLog_" + methodName;
    if p + Concat(JniSuffixes(s1)) == p + Concat(JniSuffixes(s2)) {
      assert Concat(JniSuffixes(s1)) == (p + Concat(JniSuffixes(s1)))[|p|..];
      assert Concat(JniSuffixes(s2)) == (p + Concat(JniSuffixes(s2)))[|p|..];
      JniSuffixesDecode(s1, s2);
    }
    if |s1| == |s2| && forall k :: 0 <= k < |s1| ==> JniNameClass(s1[k]) == JniNameClass(s2[k]) {
      forall k | 0 <= k < |s1|
        ensures JniSuffixes(s1)[k] == JniSuffixes(s2)[k]
      {
        JniSuffixDecodes(s1[k]);
        JniSuffixDecodes(s2[k]);
      }
      assert JniSuffixes(s1) == JniSuffixes(s2);
    }
  }

  /** Equal suffix strings come from signatures of one length that agree class by class. */
  lemma JniSuffixesDecode(s1: seq<JavaType>, s2: seq<JavaType>)
    requires Concat(JniSuffixes(s1)) == Concat(JniSuffixes(s2))
    ensures |s1| == |s2| && forall k :: 0 <= k < |s1| ==> JniNameClass(s1[k]) == JniNameClass(s2[k])
  {
    var t1, t2 := JniSuffixes(s1), JniSuffixes(s2);
    forall k | 0 <= k < |s1|
      ensures t1[k] in JniSuffixWords && SuffixType(t1[k]) == JniNameClass(s1[k])
    {
      JniSuffixDecodes(s1[k]);
    }
    forall k | 0 <= k < |s2|
      ensures t2[k] in JniSuffixWords && SuffixType(t2[k]) == JniNameClass(s2[k])
    {
      JniSuffixDecodes(s2[k]);
    }
    JniSuffixWordsArePrefixFree();
    ConcatInjective(t1, t2, JniSuffixWords);
    forall k | 0 <= k < |s1|
      ensures JniNameClass(s1[k]) == JniNameClass(s2[k])
    {
      assert SuffixType(t1[k]) == SuffixType(t2[k]);
    }
  }

  /** java_type_signature: the JVM descriptor of one scalar. */
  function JavaTypeSignature(t: JavaType): string
  {
    match t
    case Boolean => "Z"
    case Int => "I"
    case Enum => "I"
    case Long => "J"
    case Float => "F"
    case Double => "D"
    case String => "Ljava/lang/String;"
    case ByteArray => "[B"
    case _ => "UNKNOWN"
  }

  /** The descriptor codes of one signature element: an array code per chain field for
      a chain, SparseArray for key-value pairs. */
  function ArgCodes(t: JavaType, chain: seq<AtomField>): seq<string>
  {
    if t == AttributionChain then
      seq(|chain|, j requires 0 <= j < |chain| => "[" + JavaTypeSignature(chain[j].javaType))
    else [ScalarCode(t)]
  }

  /** The code of a signature element other than a chain. */
  function ScalarCode(t: JavaType): string
  {
    if t == KeyValuePair then "Landroid/util/SparseArray;" else JavaTypeSignature(t)
  }

  function DescriptorCodes(signature: seq<JavaType>, chain: seq<AtomField>): seq<string>
  {
    if |signature| == 0 then []
    else DescriptorCodes(signature[..|signature| - 1], chain) + ArgCodes(signature[|signature| - 1], chain)
  }

  lemma {:induction false} ConcatJoin(xs: seq<string>, ys: seq<string>)
    ensures Concat(xs + ys) == Concat(xs) + Concat(ys)
    decreases |xs|
  {
    if |xs| == 0 {
      assert xs + ys == ys;
    } else {
      assert (xs + ys)[1..] == xs[1..] + ys;
      ConcatJoin(xs[1..], ys);
    }
  }

  lemma DescriptorCodesStep(signature: seq<JavaType>, k: nat, chain: seq<AtomField>)
    requires k < |signature|
    ensures Concat(DescriptorCodes(signature[..k + 1], chain))
      == Concat(DescriptorCodes(signature[..k], chain)) + Concat(ArgCodes(signature[k], chain))
    ensures signature[k] != AttributionChain ==> Concat(ArgCodes(signature[k], chain)) == ScalarCode(signature[k])
  {
    assert signature[..k + 1][..k] == signature[..k];
    ConcatJoin(DescriptorCodes(signature[..k], chain), ArgCodes(signature[k], chain));
    if signature[k] != AttributionChain {
      var c := ArgCodes(signature[k], chain)[0];
      assert ArgCodes(signature[k], chain) == [c];
      assert [c][1..] == [];
    }
  }

  /** The inner loop over the chain fields: "[" and the field's code each. */
  method AppendChainCodes(prefix: string, chain: seq<AtomField>) returns (result: string)
    ensures result == prefix + Concat(ArgCodes(AttributionChain, chain))
  {
    ghost var codes := ArgCodes(AttributionChain, chain);
    result := prefix;
    for j := 0 to |chain|
      invariant result == prefix + Concat(codes[..j])
    {
      assert codes[..j + 1] == codes[..j] + [codes[j]];
      ConcatAppend(codes[..j], codes[j]);
      result := result + "[";
      result := result + JavaTypeSignature(chain[j].javaType);
    }
    assert codes[..|chain|] == codes;
  }

  lemma AppendAssociates(a: string, b: string, c: string)
    ensures (a + b) + c == a + (b + c)
  {
  }

  /** The loop of jni_function_signature over the signature elements. */
  method AppendDescriptorCodes(prefix: string, signature: seq<JavaType>, chain: seq<AtomField>) returns (result: string)
    ensures result == prefix + Concat(DescriptorCodes(signature, chain))
  {
    result := prefix;
    ghost var written: string := "";
    for k := 0 to |signature|
      invariant written == Concat(DescriptorCodes(signature[..k], chain))
      invariant result == prefix + written
    {
      DescriptorCodesStep(signature, k, chain);
      ghost var piece := Concat(ArgCodes(signature[k], chain));
      AppendAssociates(prefix, written, piece);
      var t := signature[k];
      if t == AttributionChain {
        result := AppendChainCodes(result, chain);
      } else if t == KeyValuePair {
        var sparseArray := ScalarCode(KeyValuePair);
        result := result + sparseArray;
      } else {
        var code := ScalarCode(t);
        result := result + code;
      }
      written := written + piece;
    }
    assert signature[..|signature|] == signature;
  }

  /** jni_function_signature: "(I" for the atom code, the codes of the signature, and
      ")I" for the int result. */
  method JniFunctionSignature(signature: seq<JavaType>, chain: seq<AtomField>) returns (result: string)
    ensures result == "(I" + Concat(DescriptorCodes(signature, chain)) + ")I"
  {
    result := AppendDescriptorCodes("(I", signature, chain);
    result := result + ")I";
  }

  const DescriptorWords: set<string> := {
    "Z", "I", "J", "F", "D", "Ljava/lang/String;", "[B", "UNKNOWN", "Landroid/util/SparseArray;"}

  /** The classes of non-chain types jni_function_signature tells apart. */
  function DescriptorClass(t: JavaType): JavaType
  {
    match t
    case Boolean => t
    case Int => t
    case Enum => Int
    case Long => t
    case Float => t
    case Double => t
    case String => t
    case ByteArray => t
    case KeyValuePair => t
    case _ => Object
  }

  /** The type a descriptor code is read back as. */
  function DescriptorType(code: string): JavaType
  {
    if code == "Z" then Boolean
    else if code == "I" then Int
    else if code == "J" then Long
    else if code == "F" then Float
    else if code == "D" then Double
    else if code == "Ljava/lang/String;" then String
    else if code == "[B" then ByteArray
    else if code == "Landroid/util/SparseArray;" then KeyValuePair
    else Object
  }

  /** Each descriptor word is fixed by its first character, and by its second for the
      class descriptors starting with 'L'. */
  function DescriptorByKey(c0: char, c1: char): string
  {
    if c0 == 'Z' then "Z"
    else if c0 == 'I' then "I"
    else if c0 == 'J' then "J"
    else if c0 == 'F' then "F"
    else if c0 == 'D' then "D"
    else if c0 == 'L' then (if c1 == 'j' then "Ljava/lang/String;" else "Landroid/util/SparseArray;")
    else if c0 == '[' then "[B"
    else "UNKNOWN"
  }

  function SecondChar(w: string): char
  {
    if |w| >= 2 then w[1] else ' '
  }

  lemma DescriptorWordKey(w: string)
    requires w in DescriptorWords
    ensures |w| >= 1 && (w[0] == 'L' ==> |w| >= 2) && DescriptorByKey(w[0], SecondChar(w)) == w
  {
  }

  lemma DescriptorWordsArePrefixFree()
    ensures PrefixFree(DescriptorWords)
  {
    forall a, b | a in DescriptorWords && b in DescriptorWords && a <= b
      ensures a == b
    {
      DescriptorWordKey(a);
      DescriptorWordKey(b);
      assert a[0] == b[0];
      if a[0] == 'L' {
        assert SecondChar(a) == SecondChar(b);
      }
    }
  }

  lemma ArgCodeDecodes(t: JavaType, chain: seq<AtomField>)
    requires t != AttributionChain
    ensures |ArgCodes(t, chain)| == 1
    ensures ArgCodes(t, chain)[0] in DescriptorWords
    ensures DescriptorType(ArgCodes(t, chain)[0]) == DescriptorClass(t)
  {
    match t
    case Boolean =>
    case Int =>
    case Enum =>
    case Long =>
    case Float =>
    case Double =>
    case String =>
    case ByteArray =>
    case KeyValuePair =>
      assert ArgCodes(t, chain)[0][1] == 'a';
    case Object =>
    case BooleanArray =>
    case IntArray =>
    case LongArray =>
    case FloatArray =>
    case StringArray =>
    case EnumArray =>
  }

  /** Without a chain every element contributes one code, read back to its class. */
  lemma {:induction false} ChainFreeCodes(signature: seq<JavaType>, chain: seq<AtomField>)
    requires forall k :: 0 <= k < |signature| ==> signature[k] != AttributionChain
    ensures |DescriptorCodes(signature, chain)| == |signature|
    ensures forall k :: 0 <= k < |signature| ==>
      DescriptorCodes(signature, chain)[k] in DescriptorWords
      && DescriptorType(DescriptorCodes(signature, chain)[k]) == DescriptorClass(signature[k])
  {
    if |signature| > 0 {
      var init := signature[..|signature| - 1];
      ChainFreeCodes(init, chain);
      ArgCodeDecodes(signature[|signature| - 1], chain);
    }
  }

  /** A string wrapped the same way on both sides has one content. */
  lemma Unwrap(p: string, x: string, y: string, q: string)
    requires p + x + q == p + y + q
    ensures x == y
  {
    assert |x| == |y|;
    assert x == (p + x + q)[|p|..|p| + |x|];
    assert y == (p + y + q)[|p|..|p| + |y|];
  }

  /** Two chain-free signatures get the same JNI descriptor exactly when they have the
      same length and agree element by element up to INT/ENUM and the UNKNOWN types. */
  lemma JniSignaturesDistinguish(s1: seq<JavaType>, s2: seq<JavaType>, chain: seq<AtomField>)
    requires forall k :: 0 <= k < |s1| ==> s1[k] != AttributionChain
    requires forall k :: 0 <= k < |s2| ==> s2[k] != AttributionChain
    ensures "(I" + Concat(DescriptorCodes(s1, chain)) + ")I" == "(I" + Concat(DescriptorCodes(s2, chain)) + ")I"
      <==> |s1| == |s2| && forall k :: 0 <= k < |s1| ==> DescriptorClass(s1[k]) == DescriptorClass(s2[k])
  {
    var c1, c2 := DescriptorCodes(s1, chain), DescriptorCodes(s2, chain);
    ChainFreeCodes(s1, chain);
    ChainFreeCodes(s2, chain);
    if "(I" + Concat(c1) + ")I" == "(I" + Concat(c2) + ")I" {
      Unwrap("(I", Concat(c1), Concat(c2), ")I");
      DescriptorWordsArePrefixFree();
      ConcatInjective(c1, c2, DescriptorWords);
      forall k | 0 <= k < |s1|
        ensures DescriptorClass(s1[k]) == DescriptorClass(s2[k])
      {
        assert DescriptorType(c1[k]) == DescriptorType(c2[k]);
      }
    }
    if |s1| == |s2| && forall k :: 0 <= k < |s1| ==> DescriptorClass(s1[k]) == DescriptorClass(s2[k]) {
      SameClassesSameCodes(s1, s2, chain);
    }
  }

  /** Signatures that agree class by class get the same codes. */
  lemma {:induction false} SameClassesSameCodes(s1: seq<JavaType>, s2: seq<JavaType>, chain: seq<AtomField>)
    requires |s1| == |s2|
    requires forall k :: 0 <= k < |s1| ==> s1[k] != AttributionChain && s2[k] != AttributionChain
    requires forall k :: 0 <= k < |s1| ==> DescriptorClass(s1[k]) == DescriptorClass(s2[k])
    ensures DescriptorCodes(s1, chain) == DescriptorCodes(s2, chain)
  {
    if |s1| > 0 {
      var n := |s1| - 1;
      SameClassesSameCodes(s1[..n], s2[..n], chain);
      DescriptorClassCode(s1[n], s2[n], chain);
    }
  }

  /** Types of one descriptor class share their code. */
  lemma DescriptorClassCode(t: JavaType, u: JavaType, chain: seq<AtomField>)
    requires t != AttributionChain && u != AttributionChain
    requires DescriptorClass(t) == DescriptorClass(u)
    ensures ArgCodes(t, chain) == ArgCodes(u, chain)
  {
    match t
    case Boolean =>
    case Int =>
    case Enum =>
    case Long =>
    case Float =>
    case Double =>
    case String =>
    case ByteArray =>
    case KeyValuePair =>
    case _ =>
      match u
      case _ =>
  }
}
