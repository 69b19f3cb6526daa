// The driver of the express metric generator: filtering the generated ids by
// domain, choosing the code generators from the command-line flags, running
// them, and the exit code of a run.
module ExpressMain {
  import opened ExpressUtils
  import opened ExpressCatalog
  import ExpressHash

  /* ---------------------------------------------------------------------- */
  /* Domain filter                                                          */
  /* ---------------------------------------------------------------------- */

  /** The characters '.' of an ECMAScript regular expression does not match. */
  predicate IsLineBreak(c: char) { c == '\n' || c == '\r' }

  predicate NoLineBreak(t: string)
  {
    forall j :: 0 <= j < |t| ==> !IsLineBreak(t[j])
  }

  /** domain occurs in key at position i. */
  predicate OccursAt(key: string, domain: string, i: nat)
  {
    i + |domain| <= |key| && key[i..i + |domain|] == domain
  }

  /** std::regex_match(key, ".*" + domain + ".*") for a domain free of regular
      expression metacharacters: the domain occurs in the key and the text around
      that occurrence holds no line break. */
  predicate MatchesDomain(key: string, domain: string)
  {
    exists i: nat :: i <= |key| && OccursAt(key, domain, i)
                     && NoLineBreak(key[..i]) && NoLineBreak(key[i + |domain|..])
  }

  /** filterMetricsIds of main.cpp: copy_if of the entries whose key matches. */
  function FilterMetricsIds(metricsIds: MetricInfoMap, domain: string): (filtered: MetricInfoMap)
    ensures forall k :: k in filtered <==> k in metricsIds && MatchesDomain(k, domain)
    ensures forall k :: k in filtered ==> filtered[k] == metricsIds[k]
  {
    map k | k in metricsIds && MatchesDomain(k, domain) :: metricsIds[k]
  }

  lemma ValidIdHasNoLineBreak(id: string)
    requires ValidMetricId(id)
    ensures NoLineBreak(id)
  {
    ValidMetricIdMatchesPattern(id);
    var domain: string, name: string :| IsSegment(domain) && IsSegment(name)
      && id == domain + ".value_" + name;
    forall j | 0 <= j < |id|
      ensures !IsLineBreak(id[j])
    {
      if j < |domain| {
        assert id[j] == domain[j];
      } else if j < |domain| + 7 {
        assert id[j] == ".value_"[j - |domain|];
      } else {
        assert id[j] == name[j - |domain| - 7];
      }
    }
  }

  /** On a key without line breaks, such as every valid metric id, the filter is
      exactly a substring test. */
  lemma MatchesDomainIsSubstring(key: string, domain: string)
    requires NoLineBreak(key)
    ensures MatchesDomain(key, domain) <==> exists i: nat :: i <= |key| && OccursAt(key, domain, i)
  {
    if i: nat :| i <= |key| && OccursAt(key, domain, i) {
      assert NoLineBreak(key[..i]) by {
        forall j | 0 <= j < i
          ensures !IsLineBreak(key[..i][j])
        {
          assert key[..i][j] == key[j];
        }
      }
      var rest := key[i + |domain|..];
      assert NoLineBreak(rest) by {
        forall j | 0 <= j < |rest|
          ensures !IsLineBreak(rest[j])
        {
          assert rest[j] == key[i + |domain| + j];
        }
      }
    }
  }

  /** The result is a sub-map of the ids: nothing is added and no value changes. */
  lemma FilterIsSubMap(metricsIds: MetricInfoMap, domain: string)
    ensures FilterMetricsIds(metricsIds, domain).Keys <= metricsIds.Keys
    ensures forall k :: k in FilterMetricsIds(metricsIds, domain) ==>
              FilterMetricsIds(metricsIds, domain)[k] == metricsIds[k]
  {
  }

  /** Filtering twice with the same domain is filtering once. */
  lemma FilterIdempotent(metricsIds: MetricInfoMap, domain: string)
    ensures FilterMetricsIds(FilterMetricsIds(metricsIds, domain), domain) == FilterMetricsIds(metricsIds, domain)
  {
  }

  /** An empty domain gives the pattern ".*.*", which keeps every id without
      line breaks, so every valid metric id. */
  lemma EmptyDomainKeepsAll(metricsIds: MetricInfoMap)
    requires forall k :: k in metricsIds ==> ValidMetricId(k)
    ensures FilterMetricsIds(metricsIds, "") == metricsIds
  {
    forall k | k in metricsIds
      ensures MatchesDomain(k, "")
    {
      ValidIdHasNoLineBreak(k);
      assert OccursAt(k, "", 0);
      assert k[0..] == k;
    }
  }

  /** For valid ids the filter keeps exactly the entries whose key contains the domain. */
  lemma FilterKeepsDomainIds(metricsIds: MetricInfoMap, domain: string, k: string)
    requires forall k :: k in metricsIds ==> ValidMetricId(k)
    ensures k in FilterMetricsIds(metricsIds, domain) <==>
              k in metricsIds && exists i: nat :: i <= |k| && OccursAt(k, domain, i)
  {
    if k in metricsIds {
      ValidIdHasNoLineBreak(k);
      MatchesDomainIsSubstring(k, domain);
    }
  }

  /* ---------------------------------------------------------------------- */
  /* Code generators                                                        */
  /* ---------------------------------------------------------------------- */

  /** The command-line flags the driver reads (gflags parsing is not modelled). */
  datatype Flags = Flags(cpp: string, header: string, includeHeader: string, namespaces: string,
                         java: string, javaPackage: string, javaClass: string, domain: string)

  /** One code generator with the settings it is built from. */
  datatype CodeGenerator =
    | NativeCpp(filePath: string, namespaces: string, includeHeader: string)
    | NativeHeader(filePath: string, namespaces: string)
    | Java(filePath: string, javaPackage: string, javaClass: string)

  /** The position of a generator kind in the order the driver creates them. */
  function Rank(g: CodeGenerator): nat
  {
    match g
    case NativeCpp(_, _, _) => 0
    case NativeHeader(_, _) => 1
    case Java(_, _, _) => 2
  }

  /** The generators the flags ask for. */
  function Generators(flags: Flags): seq<CodeGenerator>
  {
    (if |flags.cpp| > 0 then [NativeCpp(flags.cpp, flags.namespaces, flags.includeHeader)] else [])
    + (if |flags.header| > 0 then [NativeHeader(flags.header, flags.namespaces)] else [])
    + (if |flags.java| > 0 then [Java(flags.java, flags.javaPackage, flags.javaClass)] else [])
  }

  /** createCodeGenerators of main.cpp. */
  method CreateCodeGenerators(flags: Flags) returns (result: seq<CodeGenerator>)
    ensures result == Generators(flags)
  {
    result := [];
    if |flags.cpp| > 0 {
      result := result + [NativeCpp(flags.cpp, flags.namespaces, flags.includeHeader)];
    }
    if |flags.header| > 0 {
      result := result + [NativeHeader(flags.header, flags.namespaces)];
    }
    if |flags.java| > 0 {
      result := result + [Java(flags.java, flags.javaPackage, flags.javaClass)];
    }
  }

  /** One generator per non-empty output path, each built from its own flags, in the
      order cpp, header, java. */
  lemma GeneratorsPerFlag(flags: Flags)
    ensures NativeCpp(flags.cpp, flags.namespaces, flags.includeHeader) in Generators(flags) <==> |flags.cpp| > 0
    ensures NativeHeader(flags.header, flags.namespaces) in Generators(flags) <==> |flags.header| > 0
    ensures Java(flags.java, flags.javaPackage, flags.javaClass) in Generators(flags) <==> |flags.java| > 0
    ensures |Generators(flags)| ==
              (if |flags.cpp| > 0 then 1 else 0) + (if |flags.header| > 0 then 1 else 0)
              + (if |flags.java| > 0 then 1 else 0)
    ensures forall i, j :: 0 <= i < j < |Generators(flags)| ==>
              Rank(Generators(flags)[i]) < Rank(Generators(flags)[j])
  {
  }

  /** generateLoggingCode of main.cpp. generate stands for generateCode of each
      generator, whose file output is not modelled; written counts the generators
      that succeeded before the loop stopped. */
  method GenerateLoggingCode(flags: Flags, metricsIds: MetricInfoMap,
                             generate: (CodeGenerator, MetricInfoMap) -> bool)
    returns (ok: bool, written: nat)
    ensures written <= |Generators(flags)|
    ensures forall j :: 0 <= j < written ==> generate(Generators(flags)[j], metricsIds)
    ensures ok <==> written == |Generators(flags)|
    ensures !ok ==> !generate(Generators(flags)[written], metricsIds)
  {
    var codeGenerators := CreateCodeGenerators(flags);
    written := 0;
    while written < |codeGenerators|
      invariant written <= |codeGenerators|
      invariant forall j :: 0 <= j < written ==> generate(codeGenerators[j], metricsIds)
    {
      if !generate(codeGenerators[written], metricsIds) {
        return false, written;
      }
      written := written + 1;
    }
    ok := true;
  }

  /** The loop stops at the first failing generator, and reports success exactly when
      every generator succeeds. */
  lemma GenerateLoggingCodeAllOrFirstFailure(gens: seq<CodeGenerator>, metricsIds: MetricInfoMap,
                                            generate: (CodeGenerator, MetricInfoMap) -> bool,
                                            ok: bool, written: nat)
    requires written <= |gens|
    requires forall j :: 0 <= j < written ==> generate(gens[j], metricsIds)
    requires ok <==> written == |gens|
    requires !ok ==> !generate(gens[written], metricsIds)
    ensures ok <==> forall g :: g in gens ==> generate(g, metricsIds)
    ensures !ok ==> forall j :: 0 <= j < written ==> generate(gens[j], metricsIds)
  {
  }

  /* ---------------------------------------------------------------------- */
  /* run                                                                    */
  /* ---------------------------------------------------------------------- */

  /** How a run ends: the exit code, or never, when the collision probe spins. */
  datatype RunResult = Exit(code: int) | NeverReturns

  /** run of main.cpp. files holds the parse of each configuration file, sha256 the
      digest function, generate the per-generator file output. */
  method Run(flags: Flags, files: seq<Option<seq<ExpressMetric>>>,
             sha256: string -> ExpressHash.Digest,
             generate: (CodeGenerator, MetricInfoMap) -> bool)
    returns (result: RunResult)
    ensures var catalog := MergeFiles(map[], files, |files|);
            var g := Assign(SortedKeys(catalog.Keys), 0, catalog, {}, map[], sha256);
            var filtered := FilterMetricsIds(g.metricsIds, flags.domain);
            && (result == NeverReturns <==> g.outcome.ProbeHangs?)
            && (result == Exit(0) <==>
                  g.outcome.Generated? && |filtered| > 0
                  && forall gen :: gen in Generators(flags) ==> generate(gen, filtered))
            && (result.Exit? ==> result.code == 0 || result.code == -1)
  {
    var readOk, metrics := ReadCatalog(files, map[]);
    if !readOk {
      return Exit(-1);
    }
    var generated, outcome, metricsIds := GenerateMetricsIds(metrics, map[], sha256);
    assert HashesOf(map[]) == {};
    if outcome.ProbeHangs? {
      return NeverReturns;
    }
    if !generated {
      return Exit(-1);
    }
    var filteredMetricIds := FilterMetricsIds(metricsIds, flags.domain);
    if |filteredMetricIds| == 0 {
      return Exit(-1);
    }
    var written: nat;
    generated, written := GenerateLoggingCode(flags, filteredMetricIds, generate);
    GenerateLoggingCodeAllOrFirstFailure(Generators(flags), filteredMetricIds, generate, generated, written);
    if !generated {
      return Exit(-1);
    }
    return Exit(0);
  }

  /** A run starts from an empty id map, so generateMetricsIds never fails there for
      an existing name: -1 comes only from an empty filter result or a failing
      generator, and an unresolved collision hangs instead. */
  lemma RunNeverMeetsExistingName(files: seq<Option<seq<ExpressMetric>>>, sha256: string -> ExpressHash.Digest)
    ensures var catalog := MergeFiles(map[], files, |files|);
            !Assign(SortedKeys(catalog.Keys), 0, catalog, {}, map[], sha256).outcome.ExistingName?
  {
    var catalog := MergeFiles(map[], files, |files|);
    var names := SortedKeys(catalog.Keys);
    assert Distinct(names) by {
      forall i, j | 0 <= i < j < |names|
        ensures names[i] != names[j]
      {
        if names[i] == names[j] {
          LessIrreflexive(names[i]);
        }
      }
    }
    AssignFreshNames(names, 0, catalog, {}, map[], sha256);
  }
}
