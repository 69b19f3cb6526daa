// The express metric catalog: the naming rule for metric ids, merging parsed
// configuration records into the catalog (first definition wins), and the
// deterministic assignment of 64-bit hash ids to new metric names.
module ExpressCatalog {
  import opened ExpressUtils
  import ExpressHash

  /* ---------------------------------------------------------------------- */
  /* The metric id naming rule                                              */
  /* ---------------------------------------------------------------------- */

  predicate IsLower(c: char) { 'a' <= c <= 'z' }

  /** A character of the class [a-z_0-9]. */
  predicate IsIdChar(c: char) { IsLower(c) || c == '_' || '0' <= c <= '9' }

  /** The language [a-z]+[a-z_0-9]*: a lower-case letter, then letters, digits and
      underscores. */
  predicate IsSegment(t: string)
  {
    |t| >= 1 && IsLower(t[0]) && forall j :: 1 <= j < |t| ==> IsIdChar(t[j])
  }

  const ValuePrefix: string := "value_"

  /** validateMetricId of catalog.cpp, with the regular expression
      [a-z]+[a-z_0-9]*[.](value_)[a-z]+[a-z_0-9]* written as a matcher: a segment up
      to the first '.', then "value_", then a segment up to the end. */
  predicate ValidMetricId(id: string)
  {
    match FindFirstOf(id, ".", 0)
    case None => false
    case Some(dot) =>
      IsSegment(id[..dot]) && dot + 1 + |ValuePrefix| <= |id|
      && id[dot + 1..dot + 1 + |ValuePrefix|] == ValuePrefix
      && IsSegment(id[dot + 1 + |ValuePrefix|..])
  }

  /** The regular expression read directly: two segments around ".value_". */
  ghost predicate MatchesIdPattern(id: string)
  {
    exists domain: string, name: string {:trigger domain + ".value_" + name} ::
      IsSegment(domain) && IsSegment(name) && id == domain + ".value_" + name
  }

  lemma SegmentHasNoDot(t: string)
    requires IsSegment(t)
    ensures NoDelimiter(t, ".")
  {
  }

  /** The matcher accepts exactly the strings of the regular expression. */
  lemma ValidMetricIdMatchesPattern(id: string)
    ensures ValidMetricId(id) <==> MatchesIdPattern(id)
  {
    if ValidMetricId(id) {
      var dot := FindFirstOf(id, ".", 0).value;
      var domain, name := id[..dot], id[dot + 1 + |ValuePrefix|..];
      assert id == domain + ".value_" + name by {
        assert id == id[..dot] + [id[dot]] + id[dot + 1..dot + 7] + id[dot + 7..];
      }
    }
    if MatchesIdPattern(id) {
      var domain: string, name: string :| IsSegment(domain) && IsSegment(name)
        && id == domain + ".value_" + name;
      SegmentHasNoDot(domain);
      var dot := |domain|;
      assert id[..dot] == domain;
      assert id[dot] == '.';
      assert FindFirstOf(id, ".", 0) == Some(dot) by {
        FirstOfIsUnique(id, ".", 0, dot);
      }
      assert id[dot + 1..dot + 7] == ValuePrefix;
      assert id[dot + 7..] == name;
    }
  }

  /** A delimiter position with no delimiter before it is what find_first_of finds. */
  lemma {:induction false} FirstOfIsUnique(s: string, delimiters: string, base: nat, k: nat)
    requires base <= k < |s| && s[k] in delimiters
    requires NoDelimiter(s[base..k], delimiters)
    ensures FindFirstOf(s, delimiters, base) == Some(k)
    decreases k - base
  {
    if base < k {
      assert s[base] == s[base..k][0];
      assert s[base + 1..k] == s[base..k][1..];
      FirstOfIsUnique(s, delimiters, base + 1, k);
    }
  }

  /** Every accepted id holds exactly one '.', and "value_" follows it. */
  lemma ValidMetricIdHasOneDot(id: string)
    requires ValidMetricId(id)
    ensures exists dot :: 0 <= dot < |id| && id[dot] == '.'
    ensures forall i, j :: 0 <= i < |id| && 0 <= j < |id| && id[i] == '.' && id[j] == '.' ==> i == j
    ensures forall dot :: 0 <= dot < |id| && id[dot] == '.' ==>
              dot + 7 <= |id| && id[dot + 1..dot + 7] == "value_"
  {
    var dot := FindFirstOf(id, ".", 0).value;
    var rest := id[dot + 7..];
    SegmentHasNoDot(rest);
    assert forall i :: dot < i < |id| ==> id[i] != '.' by {
      forall i | dot < i < |id|
        ensures id[i] != '.'
      {
        if i >= dot + 7 {
          assert id[i] == rest[i - dot - 7];
        } else {
          assert id[i] == ValuePrefix[i - dot - 1];
        }
      }
    }
    assert forall i :: 0 <= i < dot ==> id[i] != '.' by {
      forall i | 0 <= i < dot
        ensures id[i] != '.'
      {
        assert id[i] == id[..dot][i];
      }
    }
  }

  /** The id used by the express test clients is accepted. */
  lemma TestMetricIdIsValid()
    ensures ValidMetricId("tex_test" + ".value_" + "telemetry_express_test_counter")
  {
    assert IsSegment("tex_test");
    assert IsSegment("telemetry_express_test_counter");
    ValidMetricIdMatchesPattern("tex_test" + ".value_" + "telemetry_express_test_counter");
  }

  /** An id without "value_" after its dot, or one starting with a digit, is refused. */
  lemma InvalidMetricIds()
    ensures !ValidMetricId("tex_test" + ".counter")
    ensures !ValidMetricId("1tex" + ".value_" + "counter")
  {
    var id := "tex_test" + ".counter";
    assert id[..8] == "tex_test";
    assert IsSegment("tex_test");
    SegmentHasNoDot("tex_test");
    FirstOfIsUnique(id, ".", 0, 8);
    assert id[9..15][0] != ValuePrefix[0];
  }

  /* ---------------------------------------------------------------------- */
  /* Reading the catalog                                                    */
  /* ---------------------------------------------------------------------- */

  /** The code of the metric type enum of the catalog protocol buffer, carried over
      unchanged into the generated MetricInfo. */
  type MetricType = nat

  /** One ExpressMetric record of a parsed configuration file. Only the optional id
      and the type take part in the generator's decisions. */
  datatype ExpressMetric = ExpressMetric(id: Option<string>, metricType: MetricType)

  type Catalog = map<string, ExpressMetric>

  /** Whether the per-record loop of readMetrics keeps a record: it has an id, the id
      follows the naming rule, and no metric of that id is in the catalog yet. */
  predicate Accepts(metrics: Catalog, metric: ExpressMetric)
  {
    metric.id.Some? && ValidMetricId(metric.id.value) && metric.id.value !in metrics
  }

  /** The catalog after the first n records of one file have been merged in. */
  function MergeRecords(metrics: Catalog, records: seq<ExpressMetric>, n: nat): Catalog
    requires n <= |records|
  {
    if n == 0 then metrics
    else
      var before := MergeRecords(metrics, records, n - 1);
      var metric := records[n - 1];
      if Accepts(before, metric) then before[metric.id.value := metric] else before
  }

  /** readMetrics of catalog.cpp, the file read and the text-format parse left out:
      parsed is None when parsing fails. A failed parse returns false and leaves the
      catalog alone; otherwise every record is merged in and the result is true. */
  method ReadMetrics(parsed: Option<seq<ExpressMetric>>, metrics: Catalog)
    returns (ok: bool, merged: Catalog)
    ensures ok <==> parsed.Some?
    ensures merged == if parsed.None? then metrics
                      else MergeRecords(metrics, parsed.value, |parsed.value|)
  {
    if parsed.None? {
      return false, metrics;
    }
    var records := parsed.value;
    merged := metrics;
    for i := 0 to |records|
      invariant merged == MergeRecords(metrics, records, i)
    {
      var metric := records[i];
      if metric.id.None? {
        continue;
      }
      if !ValidMetricId(metric.id.value) {
        continue;
      }
      if metric.id.value in merged {
        continue;
      }
      merged := merged[metric.id.value := metric];
    }
    ok := true;
  }

  /** An entry already in the catalog is never overwritten: the first definition wins. */
  lemma {:induction false} MergeKeepsEntries(metrics: Catalog, records: seq<ExpressMetric>, n: nat)
    requires n <= |records|
    ensures forall k :: k in metrics ==>
              k in MergeRecords(metrics, records, n) && MergeRecords(metrics, records, n)[k] == metrics[k]
  {
    if n > 0 {
      MergeKeepsEntries(metrics, records, n - 1);
    }
  }

  /** The first record of a given valid id among the first n, if any. */
  function FirstWithId(records: seq<ExpressMetric>, n: nat, k: string): (r: Option<nat>)
    requires n <= |records|
    ensures r.Some? ==> r.value < n && records[r.value].id == Some(k)
    ensures r.Some? ==> forall j :: 0 <= j < r.value ==> records[j].id != Some(k)
    ensures r.None? ==> forall j :: 0 <= j < n ==> records[j].id != Some(k)
  {
    if n == 0 then None
    else
      var r := FirstWithId(records, n - 1, k);
      if r.Some? then r
      else if records[n - 1].id == Some(k) then Some(n - 1)
      else None
  }

  /** The new keys are exactly the valid ids of the records that were not in the
      catalog before, and each maps to the first record carrying it. */
  lemma {:induction false} MergeNewEntries(metrics: Catalog, records: seq<ExpressMetric>, n: nat, k: string)
    requires n <= |records|
    requires k !in metrics
    ensures k in MergeRecords(metrics, records, n) <==>
              ValidMetricId(k) && FirstWithId(records, n, k).Some?
    ensures k in MergeRecords(metrics, records, n) ==>
              MergeRecords(metrics, records, n)[k] == records[FirstWithId(records, n, k).value]
  {
    if n > 0 {
      MergeNewEntries(metrics, records, n - 1, k);
    }
  }

  /** Every key the merge adds is a valid metric id. */
  lemma MergeAddsValidIds(metrics: Catalog, records: seq<ExpressMetric>, n: nat)
    requires n <= |records|
    ensures forall k :: k in MergeRecords(metrics, records, n) && k !in metrics ==> ValidMetricId(k)
  {
    forall k | k in MergeRecords(metrics, records, n) && k !in metrics
      ensures ValidMetricId(k)
    {
      MergeNewEntries(metrics, records, n, k);
    }
  }

  /** The catalog after every configuration file has been read, in directory order;
      a file that does not parse contributes nothing. */
  function MergeFiles(metrics: Catalog, files: seq<Option<seq<ExpressMetric>>>, n: nat): Catalog
    requires n <= |files|
  {
    if n == 0 then metrics
    else
      var before := MergeFiles(metrics, files, n - 1);
      match files[n - 1]
      case None => before
      case Some(records) => MergeRecords(before, records, |records|)
  }

  /** readCatalog of catalog.cpp, the directory listing left out: files holds the
      parse of each .cfg file in the order the directory listing gives them. The
      result of readMetrics is ignored and readCatalog always reports success. */
  method ReadCatalog(files: seq<Option<seq<ExpressMetric>>>, metrics: Catalog)
    returns (ok: bool, catalog: Catalog)
    ensures ok
    ensures catalog == MergeFiles(metrics, files, |files|)
  {
    catalog := metrics;
    for i := 0 to |files|
      invariant catalog == MergeFiles(metrics, files, i)
    {
      var _, next := ReadMetrics(files[i], catalog);
      catalog := next;
    }
    ok := true;
  }

  /** The successfully parsed records of the first n files, in order. */
  function ParsedRecords(files: seq<Option<seq<ExpressMetric>>>, n: nat): seq<ExpressMetric>
    requires n <= |files|
  {
    if n == 0 then []
    else ParsedRecords(files, n - 1) + (if files[n - 1].Some? then files[n - 1].value else [])
  }

  /** Merging two batches of records one after the other is merging their concatenation. */
  lemma {:induction false} MergeRecordsAppend(metrics: Catalog, a: seq<ExpressMetric>, b: seq<ExpressMetric>, n: nat)
    requires n <= |b|
    ensures MergeRecords(MergeRecords(metrics, a, |a|), b, n) == MergeRecords(metrics, a + b, |a| + n)
  {
    if n == 0 {
      MergeRecordsPrefix(metrics, a, a + b, |a|);
    } else {
      MergeRecordsAppend(metrics, a, b, n - 1);
      assert (a + b)[|a| + n - 1] == b[n - 1];
    }
  }

  /** Merging depends on the records merged only. */
  lemma {:induction false} MergeRecordsPrefix(metrics: Catalog, a: seq<ExpressMetric>, c: seq<ExpressMetric>, n: nat)
    requires n <= |a| && n <= |c|
    requires a[..n] == c[..n]
    ensures MergeRecords(metrics, a, n) == MergeRecords(metrics, c, n)
  {
    if n > 0 {
      assert a[n - 1] == a[..n][n - 1] == c[..n][n - 1] == c[n - 1];
      assert a[..n - 1] == a[..n][..n - 1] == c[..n][..n - 1] == c[..n - 1];
      MergeRecordsPrefix(metrics, a, c, n - 1);
    }
  }

  /** Reading the catalog file by file is merging all successfully parsed records at
      once: files that fail to parse are skipped without effect. */
  lemma {:induction false} MergeFilesIsMergeOfParsed(metrics: Catalog, files: seq<Option<seq<ExpressMetric>>>, n: nat)
    requires n <= |files|
    ensures MergeFiles(metrics, files, n) == MergeRecords(metrics, ParsedRecords(files, n), |ParsedRecords(files, n)|)
  {
    if n > 0 {
      MergeFilesIsMergeOfParsed(metrics, files, n - 1);
      var before := ParsedRecords(files, n - 1);
      match files[n - 1]
      case None =>
        assert ParsedRecords(files, n) == before + [];
        assert before + [] == before;
      case Some(records) =>
        MergeRecordsAppend(metrics, before, records, |records|);
    }
  }

  /* ---------------------------------------------------------------------- */
  /* The order of metric names                                              */
  /* ---------------------------------------------------------------------- */

  /** std::string operator<: lexicographic on characters, a proper prefix first. */
  predicate Less(a: string, b: string)
  {
    if b == [] then false
    else if a == [] then true
    else if a[0] != b[0] then a[0] < b[0]
    else Less(a[1..], b[1..])
  }

  lemma {:induction false} LessIrreflexive(a: string)
    ensures !Less(a, a)
  {
    if a != [] {
      LessIrreflexive(a[1..]);
    }
  }

  lemma {:induction false} LessTransitive(a: string, b: string, c: string)
    requires Less(a, b) && Less(b, c)
    ensures Less(a, c)
  {
    if a != [] && a[0] == b[0] && b[0] == c[0] {
      LessTransitive(a[1..], b[1..], c[1..]);
    }
  }

  lemma {:induction false} LessTotal(a: string, b: string)
    ensures a == b || Less(a, b) || Less(b, a)
  {
    if a != [] && b != [] && a[0] == b[0] {
      LessTotal(a[1..], b[1..]);
      if a[1..] == b[1..] {
        assert a == [a[0]] + a[1..] && b == [b[0]] + b[1..];
      }
    }
  }

  lemma {:induction false} LessAsymmetric(a: string, b: string)
    requires Less(a, b)
    ensures !Less(b, a)
  {
    if Less(b, a) {
      LessTransitive(a, b, a);
      LessIrreflexive(a);
    }
  }

  /** Strictly increasing: each name comes before every later one. */
  predicate StrictlySorted(names: seq<string>)
  {
    forall i, j :: 0 <= i < j < |names| ==> Less(names[i], names[j])
  }

  /** Insertion of one name into a sorted list. */
  function InsertName(x: string, sorted: seq<string>): (r: seq<string>)
    ensures multiset(r) == multiset(sorted) + multiset{x}
  {
    if sorted == [] then [x]
    else if Less(sorted[0], x) then
      assert sorted == [sorted[0]] + sorted[1..];
      [sorted[0]] + InsertName(x, sorted[1..])
    else [x] + sorted
  }

  lemma {:induction false} InsertNameSorted(x: string, sorted: seq<string>)
    requires StrictlySorted(sorted) && x !in sorted
    ensures StrictlySorted(InsertName(x, sorted))
  {
    if sorted == [] {
    } else if Less(sorted[0], x) {
      InsertNameSorted(x, sorted[1..]);
      var rest := InsertName(x, sorted[1..]);
      forall y | y in rest
        ensures y == x || y in sorted[1..]
      {
        assert y in multiset(rest);
        assert y in multiset(sorted[1..]) + multiset{x};
      }
      forall j | 0 <= j < |rest|
        ensures Less(sorted[0], rest[j])
      {
        assert rest[j] in rest;
        if rest[j] != x {
          var k :| 0 <= k < |sorted[1..]| && sorted[1..][k] == rest[j];
          assert sorted[k + 1] == rest[j];
        }
      }
    } else {
      LessTotal(sorted[0], x);
      assert Less(x, sorted[0]) by {
        assert sorted[0] in sorted;
      }
      forall j | 1 <= j < |sorted|
        ensures Less(x, sorted[j])
      {
        LessTransitive(x, sorted[0], sorted[j]);
      }
    }
  }

  /** std::sort of the collected names, written as an insertion sort. */
  function SortNames(names: seq<string>): (r: seq<string>)
    ensures multiset(r) == multiset(names)
  {
    if names == [] then []
    else
      assert names == [names[0]] + names[1..];
      InsertName(names[0], SortNames(names[1..]))
  }

  /** No name occurs twice. */
  predicate Distinct(names: seq<string>)
  {
    forall i, j :: 0 <= i < j < |names| ==> names[i] != names[j]
  }

  lemma {:induction false} SortNamesSorted(names: seq<string>)
    requires Distinct(names)
    ensures StrictlySorted(SortNames(names))
  {
    if names != [] {
      SortNamesSorted(names[1..]);
      var rest := SortNames(names[1..]);
      assert names[0] !in names[1..] by {
        assert forall k :: 0 <= k < |names| - 1 ==> names[1..][k] == names[k + 1];
      }
      assert names[0] !in multiset(names[1..]);
      InsertNameSorted(names[0], rest);
    }
  }

  /** Two strictly sorted lists of the same names are equal. */
  lemma {:induction false} StrictlySortedUnique(a: seq<string>, b: seq<string>)
    requires StrictlySorted(a) && StrictlySorted(b)
    requires forall x :: x in a <==> x in b
    ensures a == b
  {
    SameElementsBothEmpty(a, b);
    if a != [] && b != [] {
      assert a[0] == b[0] by {
        if a[0] != b[0] {
          assert a[0] in b && b[0] in a;
          var i :| 0 <= i < |b| && b[i] == a[0];
          var j :| 0 <= j < |a| && a[j] == b[0];
          assert i > 0 && j > 0;
          LessAsymmetric(a[0], a[j]);
        }
      }
      forall x
        ensures x in a[1..] <==> x in b[1..]
      {
        if x in a[1..] {
          InTail(a, b, x);
        }
        if x in b[1..] {
          InTail(b, a, x);
        }
      }
      StrictlySortedUnique(a[1..], b[1..]);
      assert a == [a[0]] + a[1..] && b == [b[0]] + b[1..];
    }
  }

  lemma SameElementsBothEmpty(a: seq<string>, b: seq<string>)
    requires forall x :: x in a <==> x in b
    ensures a == [] <==> b == []
  {
    if a != [] {
      assert a[0] in b;
    }
    if b != [] {
      assert b[0] in a;
    }
  }

  /** A name after the head of one sorted list is after the head of the other. */
  lemma InTail(a: seq<string>, b: seq<string>, x: string)
    requires StrictlySorted(a) && StrictlySorted(b) && a != [] && b != [] && a[0] == b[0]
    requires forall y :: y in a <==> y in b
    requires x in a[1..]
    ensures x in b[1..]
  {
    var i :| 0 <= i < |a[1..]| && a[1..][i] == x;
    assert Less(a[0], x);
    LessIrreflexive(a[0]);
    assert x in b;
    var j :| 0 <= j < |b| && b[j] == x;
    assert j != 0;
    assert b[1..][j - 1] == x;
  }

  lemma SortNamesElements(names: seq<string>)
    ensures forall x :: x in SortNames(names) <==> x in names
  {
    forall x
      ensures x in SortNames(names) <==> x in names
    {
      assert x in SortNames(names) <==> x in multiset(SortNames(names));
      assert x in names <==> x in multiset(names);
    }
  }

  /** The names of a catalog listed in some order, each once. */
  ghost predicate Enumerates(names: seq<string>, keys: set<string>)
  {
    Distinct(names) && forall x :: x in names <==> x in keys
  }

  /** Sorting removes the iteration order of the unordered map: any two listings of
      the same names sort to the same list, so the hash each name gets does not
      depend on the order the map is walked in. */
  lemma SortNamesDeterministic(a: seq<string>, b: seq<string>, keys: set<string>)
    requires Enumerates(a, keys) && Enumerates(b, keys)
    ensures SortNames(a) == SortNames(b)
    ensures StrictlySorted(SortNames(a))
  {
    SortNamesSorted(a);
    SortNamesSorted(b);
    SortNamesElements(a);
    SortNamesElements(b);
    StrictlySortedUnique(SortNames(a), SortNames(b));
  }

  /* ---------------------------------------------------------------------- */
  /* Generating metric ids                                                  */
  /* ---------------------------------------------------------------------- */

  const Int64Max: int := 0x7fff_ffff_ffff_ffff
  const Int64Min: int := -0x8000_0000_0000_0000

  /** A generated MetricInfo record: the metric id, its int64_t hash and its type. */
  datatype MetricInfo = MetricInfo(id: string, hash: int, metricType: MetricType)

  type MetricInfoMap = map<string, MetricInfo>

  /** How generateMetricsIds ends. ProbeHangs marks the do-while probe for a colliding
      hash, which never exits there; the model stops at that point instead. */
  datatype Outcome = Generated | ExistingName(name: string) | ProbeHangs(name: string)

  datatype Generation = Generation(outcome: Outcome, metricsIds: MetricInfoMap)

  /** The hashes held by the entries of a map. */
  function HashesOf(ids: MetricInfoMap): set<int>
  {
    set k | k in ids.Keys :: ids[k].hash
  }

  /** The signed hash of a metric name: hash64 of its SHA-256 digest read as int64_t.
      sha256 stands for the OpenSSL digest, which is not modelled. */
  function NameHash(name: string, sha256: string -> ExpressHash.Digest): (h: int)
    ensures Int64Min <= h <= Int64Max
  {
    ExpressHash.WordFits(sha256(name));
    ExpressHash.ToInt64(ExpressHash.LittleEndian(sha256(name), 8))
  }

  /** One round of the collision probe, hashId = hashId++ % INT64_MAX. Under C++17
      sequencing the right side, including the increment, is evaluated before the
      assignment, which then overwrites the incremented value: the round leaves
      the truncating remainder of the old value by INT64_MAX. */
  function ProbeStep(h: int): (r: int)
    requires Int64Min <= h <= Int64Max
    ensures -Int64Max < r < Int64Max
    ensures r == h <==> Int64Min + 1 < h < Int64Max
  {
    if h >= 0 then h % Int64Max else -((-h) % Int64Max)
  }

  /** The probe's only moves: INT64_MAX goes to 0, INT64_MIN to -1 and INT64_MIN + 1
      to 0; every other value stays where it is. */
  lemma ProbeStepMoves()
    ensures ProbeStep(Int64Max) == 0
    ensures ProbeStep(Int64Min) == -1
    ensures ProbeStep(Int64Min + 1) == 0
  {
  }

  /** The value after n rounds of the probe. */
  function ProbeRounds(h: int, n: nat): (r: int)
    requires Int64Min <= h <= Int64Max
    ensures Int64Min <= r <= Int64Max
  {
    if n == 0 then h else ProbeStep(ProbeRounds(h, n - 1))
  }

  /** After the first round the probe no longer moves, so the do-while condition
      tests the same value in every round: the loop exits after one round exactly
      when ProbeStep(h) is a fresh hash, and never exits otherwise. */
  lemma {:induction false} ProbeRoundsStayPut(h: int, n: nat)
    requires Int64Min <= h <= Int64Max
    requires n >= 1
    ensures ProbeRounds(h, n) == ProbeStep(h)
  {
    if n > 1 {
      ProbeRoundsStayPut(h, n - 1);
    }
  }

  /** The ids generated for names[i..], given the hashes in use and the map so far. */
  function Assign(names: seq<string>, i: nat, metrics: Catalog, hashes: set<int>,
                  ids: MetricInfoMap, sha256: string -> ExpressHash.Digest): Generation
    requires i <= |names|
    requires forall n :: n in names ==> n in metrics
    decreases |names| - i
  {
    if i == |names| then Generation(Generated, ids)
    else
      var name := names[i];
      if name in ids then Generation(ExistingName(name), ids)
      else
        var h := NameHash(name, sha256);
        if h in hashes && ProbeStep(h) in hashes then Generation(ProbeHangs(name), ids)
        else
          var hashId := if h in hashes then ProbeStep(h) else h;
          Assign(names, i + 1, metrics, hashes + {hashId},
                 ids[name := MetricInfo(name, hashId, metrics[name].metricType)], sha256)
  }

  /** The keys of a catalog in some order, as the walk over the unordered map gives them. */
  ghost function SomeListing(keys: set<string>): (names: seq<string>)
    ensures Enumerates(names, keys)
    decreases |keys|
  {
    if keys == {} then []
    else
      var k :| k in keys;
      var rest := SomeListing(keys - {k});
      [k] + rest
  }

  /** The catalog's names in ascending order, the order generateMetricsIds uses. */
  ghost function SortedKeys(keys: set<string>): (names: seq<string>)
    ensures StrictlySorted(names)
    ensures forall x :: x in names <==> x in keys
  {
    SortNamesSorted(SomeListing(keys));
    SortNamesElements(SomeListing(keys));
    SortNames(SomeListing(keys))
  }

  /** The first loop of generateMetricsIds: the hashes already taken. */
  method CollectHashes(metricsIds: MetricInfoMap) returns (currentHashes: set<int>)
    ensures currentHashes == HashesOf(metricsIds)
  {
    currentHashes := {};
    var unseen := metricsIds.Keys;
    while unseen != {}
      invariant unseen <= metricsIds.Keys
      invariant currentHashes == set k | k in metricsIds.Keys - unseen :: metricsIds[k].hash
      decreases |unseen|
    {
      var k :| k in unseen;
      currentHashes := currentHashes + {metricsIds[k].hash};
      unseen := unseen - {k};
    }
  }

  /** The second loop of generateMetricsIds: the names of the catalog, once each. */
  method ListNames(metrics: Catalog) returns (names: seq<string>)
    ensures Enumerates(names, metrics.Keys)
  {
    names := [];
    var unlisted := metrics.Keys;
    while unlisted != {}
      invariant unlisted <= metrics.Keys
      invariant Enumerates(names, metrics.Keys - unlisted)
      decreases |unlisted|
    {
      var name :| name in unlisted;
      names := names + [name];
      unlisted := unlisted - {name};
    }
  }

  /** generateMetricsIds of catalog.cpp. The walks over the unordered containers pick
      their elements in an arbitrary order; sorting makes the result independent of it. */
  method GenerateMetricsIds(metrics: Catalog, metricsIds: MetricInfoMap,
                            sha256: string -> ExpressHash.Digest)
    returns (ok: bool, outcome: Outcome, ids: MetricInfoMap)
    ensures Generation(outcome, ids) ==
              Assign(SortedKeys(metrics.Keys), 0, metrics, HashesOf(metricsIds), metricsIds, sha256)
    ensures ok <==> outcome.Generated?
  {
    var currentHashes := CollectHashes(metricsIds);
    var updateNamesList := ListNames(metrics);
    SortNamesDeterministic(updateNamesList, SomeListing(metrics.Keys), metrics.Keys);
    updateNamesList := SortNames(updateNamesList);
    assert updateNamesList == SortedKeys(metrics.Keys);
    assert forall n :: n in updateNamesList ==> n in metrics;

    outcome, ids := AssignIds(updateNamesList, metrics, currentHashes, metricsIds, sha256);
    ok := outcome.Generated?;
  }

  /** The third loop of generateMetricsIds: walk the names in order, failing on a name
      already in the map, hashing every other one (one probe round on a collision,
      ProbeHangs when that round collides too) and inserting its entry. */
  method AssignIds(names: seq<string>, metrics: Catalog, hashes: set<int>, metricsIds: MetricInfoMap,
                   sha256: string -> ExpressHash.Digest)
    returns (outcome: Outcome, ids: MetricInfoMap)
    requires forall n :: n in names ==> n in metrics
    ensures Generation(outcome, ids) == Assign(names, 0, metrics, hashes, metricsIds, sha256)
  {
    var currentHashes := hashes;
    ids := metricsIds;
    for i := 0 to |names|
      invariant Assign(names, i, metrics, currentHashes, ids, sha256) ==
                Assign(names, 0, metrics, hashes, metricsIds, sha256)
    {
      var metricId := names[i];
      if metricId in ids {
        return ExistingName(metricId), ids;
      }
      var digest := sha256(metricId);
      var hash64 := ExpressHash.Hash64(digest);
      var hashId := ExpressHash.ToInt64(hash64);
      assert hashId == NameHash(metricId, sha256);
      if hashId in currentHashes {
        // The first round of the do-while. By ProbeRoundsStayPut every later round
        // recomputes the same value, so a second collision never ends the loop.
        hashId := ProbeStep(hashId);
        if hashId in currentHashes {
          return ProbeHangs(metricId), ids;
        }
      }
      currentHashes := currentHashes + {hashId};
      ids := ids[metricId := MetricInfo(metricId, hashId, metrics[metricId].metricType)];
    }
    return Generated, ids;
  }

  /** Each name of names that Assign inserts gets an entry with its own id and the
      catalog's type, hashed from its own digest (moved by one probe round on a
      collision); entries already in the map are left alone. */
  lemma {:induction false} AssignEntries(names: seq<string>, i: nat, metrics: Catalog, hashes: set<int>,
                                         ids: MetricInfoMap, sha256: string -> ExpressHash.Digest)
    requires i <= |names|
    requires forall n :: n in names ==> n in metrics
    ensures var g := Assign(names, i, metrics, hashes, ids, sha256);
      (forall k :: k in ids ==> k in g.metricsIds && g.metricsIds[k] == ids[k]) &&
      (forall k :: k in g.metricsIds && k !in ids ==>
         k in names[i..] && g.metricsIds[k].id == k && g.metricsIds[k].metricType == metrics[k].metricType
         && (g.metricsIds[k].hash == NameHash(k, sha256) || g.metricsIds[k].hash == ProbeStep(NameHash(k, sha256))))
    decreases |names| - i
  {
    if i < |names| && names[i] !in ids {
      var h := NameHash(names[i], sha256);
      if !(h in hashes && ProbeStep(h) in hashes) {
        var hashId := if h in hashes then ProbeStep(h) else h;
        AssignEntries(names, i + 1, metrics, hashes + {hashId},
                      ids[names[i] := MetricInfo(names[i], hashId, metrics[names[i]].metricType)], sha256);
      }
    }
  }

  /** On success every name has been inserted: the new map is the old one plus exactly
      one entry per name. */
  lemma {:induction false} AssignGeneratedKeys(names: seq<string>, i: nat, metrics: Catalog, hashes: set<int>,
                                               ids: MetricInfoMap, sha256: string -> ExpressHash.Digest)
    requires i <= |names|
    requires forall n :: n in names ==> n in metrics
    ensures var g := Assign(names, i, metrics, hashes, ids, sha256);
      g.outcome.Generated? ==> forall k :: k in g.metricsIds <==> k in ids || k in names[i..]
    decreases |names| - i
  {
    if i < |names| && names[i] !in ids {
      var h := NameHash(names[i], sha256);
      if !(h in hashes && ProbeStep(h) in hashes) {
        var hashId := if h in hashes then ProbeStep(h) else h;
        var next := ids[names[i] := MetricInfo(names[i], hashId, metrics[names[i]].metricType)];
        AssignGeneratedKeys(names, i + 1, metrics, hashes + {hashId}, next, sha256);
        AssignEntries(names, i + 1, metrics, hashes + {hashId}, next, sha256);
        assert forall k :: k in names[i..] <==> k == names[i] || k in names[i + 1..] by {
          assert names[i..] == [names[i]] + names[i + 1..];
        }
      }
    }
  }

  /** Failing is not all or nothing: when the walk stops at a name, sorted order has
      already inserted exactly the names before it. */
  lemma {:induction false} AssignStopKeys(names: seq<string>, i: nat, metrics: Catalog, hashes: set<int>,
                                          ids: MetricInfoMap, sha256: string -> ExpressHash.Digest)
    requires i <= |names|
    requires forall n :: n in names ==> n in metrics
    requires StrictlySorted(names)
    ensures var g := Assign(names, i, metrics, hashes, ids, sha256);
      !g.outcome.Generated? ==>
        g.outcome.name in names[i..] &&
        (g.outcome.ExistingName? ==> g.outcome.name in g.metricsIds) &&
        forall k :: k in g.metricsIds <==> k in ids || (k in names[i..] && Less(k, g.outcome.name))
    decreases |names| - i
  {
    if i < |names| {
      var first := names[i];
      assert forall k :: k in names[i..] && Less(k, first) ==> false by {
        forall k | k in names[i..] && Less(k, first)
          ensures false
        {
          var j :| 0 <= j < |names[i..]| && names[i..][j] == k;
          if j == 0 {
            LessIrreflexive(k);
          } else {
            assert Less(names[i], names[i + j]);
            LessAsymmetric(first, k);
          }
        }
      }
      if first !in ids {
        var h := NameHash(first, sha256);
        if !(h in hashes && ProbeStep(h) in hashes) {
          var hashId := if h in hashes then ProbeStep(h) else h;
          var next := ids[first := MetricInfo(first, hashId, metrics[first].metricType)];
          AssignStopKeys(names, i + 1, metrics, hashes + {hashId}, next, sha256);
          var g := Assign(names, i + 1, metrics, hashes + {hashId}, next, sha256);
          if !g.outcome.Generated? {
            var stop := g.outcome.name;
            assert names[i..] == [first] + names[i + 1..];
            var j :| 0 <= j < |names[i + 1..]| && names[i + 1..][j] == stop;
            assert Less(first, stop) by {
              assert names[i + 1 + j] == stop;
            }
            forall k
              ensures k in names[i..] && Less(k, stop) <==> k == first || (k in names[i + 1..] && Less(k, stop))
            {
            }
          }
        }
      }
    }
  }

  /** Every inserted hash was free when it was chosen, so it differs from every hash
      already in use and from every other inserted hash. */
  lemma {:induction false} AssignHashesDistinct(names: seq<string>, i: nat, metrics: Catalog, hashes: set<int>,
                                                ids: MetricInfoMap, sha256: string -> ExpressHash.Digest)
    requires i <= |names|
    requires forall n :: n in names ==> n in metrics
    requires HashesOf(ids) <= hashes
    ensures var g := Assign(names, i, metrics, hashes, ids, sha256);
      (forall k :: k in g.metricsIds && k !in ids ==> g.metricsIds[k].hash !in hashes) &&
      (forall k1, k2 :: k1 in g.metricsIds && k2 in g.metricsIds && k1 != k2 && k1 !in ids ==>
         g.metricsIds[k1].hash != g.metricsIds[k2].hash)
    decreases |names| - i
  {
    var g := Assign(names, i, metrics, hashes, ids, sha256);
    AssignEntries(names, i, metrics, hashes, ids, sha256);
    if i < |names| && names[i] !in ids {
      var name := names[i];
      var h := NameHash(name, sha256);
      if !(h in hashes && ProbeStep(h) in hashes) {
        var hashId := if h in hashes then ProbeStep(h) else h;
        var next := ids[name := MetricInfo(name, hashId, metrics[name].metricType)];
        assert HashesOf(next) <= hashes + {hashId} by {
          forall k | k in next
            ensures next[k].hash in hashes + {hashId}
          {
            if k != name {
              assert ids[k].hash in HashesOf(ids);
            }
          }
        }
        AssignHashesDistinct(names, i + 1, metrics, hashes + {hashId}, next, sha256);
        AssignEntries(names, i + 1, metrics, hashes + {hashId}, next, sha256);
        forall k1, k2 | k1 in g.metricsIds && k2 in g.metricsIds && k1 != k2 && k1 !in ids
          ensures g.metricsIds[k1].hash != g.metricsIds[k2].hash
        {
          if k1 == name {
            assert g.metricsIds[k1].hash == hashId;
            if k2 in ids {
              assert ids[k2].hash in HashesOf(ids);
            }
          } else if k2 !in next {
          } else if k2 in ids {
            assert ids[k2].hash in HashesOf(ids);
          } else {
            assert k2 == name;
            assert g.metricsIds[k2].hash == hashId;
          }
        }
      }
    }
  }

  /** When no name is in the map to begin with, as in the tool's own run, the walk
      never stops for an existing name. */
  lemma {:induction false} AssignFreshNames(names: seq<string>, i: nat, metrics: Catalog, hashes: set<int>,
                                            ids: MetricInfoMap, sha256: string -> ExpressHash.Digest)
    requires i <= |names|
    requires forall n :: n in names ==> n in metrics
    requires Distinct(names)
    requires forall k :: k in ids ==> k !in names[i..]
    ensures !Assign(names, i, metrics, hashes, ids, sha256).outcome.ExistingName?
    decreases |names| - i
  {
    if i < |names| {
      var name := names[i];
      assert name in names[i..];
      var h := NameHash(name, sha256);
      if !(h in hashes && ProbeStep(h) in hashes) {
        var hashId := if h in hashes then ProbeStep(h) else h;
        var next := ids[name := MetricInfo(name, hashId, metrics[name].metricType)];
        forall k | k in next
          ensures k !in names[i + 1..]
        {
          if k == name {
            assert forall j :: i < j < |names| ==> names[j] != names[i];
          } else {
            assert names[i..] == [name] + names[i + 1..];
          }
        }
        AssignFreshNames(names, i + 1, metrics, hashes + {hashId}, next, sha256);
      }
    }
  }
}
