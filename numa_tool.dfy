/** The hwloc NUMA overlap diagnostic tool as a whole: the argument check,
    the staged topology set-up, the domain count check, and the domain loop
    that records each domain's weight, compares its cpuset with the cached
    cpusets of all earlier domains, and appends it to a fixed cache of 100
    slots.  Everything hwloc returns is an input value. */
module NumaTool {
  import opened NumaReport

  /** Slots in the tool's cache of already scanned cpusets. */
  const CacheSlots := 100

  /** What the hwloc calls made by the tool return, in call order: the return
      code of each set-up call, the number of NUMA objects, and the cpuset of
      each NUMA object by index. */
  datatype Hwloc = Hwloc(
    initRc: int,
    setXmlRc: int,
    ioTypesRc: int,
    setFlagsRc: int,
    loadRc: int,
    numaCount: int,
    cpusets: seq<set<nat>>)

  /** The set-up call that failed. */
  datatype Stage = Init | SetXml | IoTypes | SetFlags | Load

  /** How a run of the tool ends. */
  datatype Run =
    | Usage
    | LoadFailed(stage: Stage, code: int)
    | BadCount(count: int)
    | Completed(weights: seq<nat>, findings: seq<Finding>, noOverlapLine: bool)

  /** The value `main` returns; a completed run falls off the end of `main`. */
  function ExitCode(r: Run): int
  {
    match r
    case Usage => -1
    case LoadFailed(_, code) => code
    case BadCount(_) => -1
    case Completed(_, _, _) => 0
  }

  /** Every set-up call succeeded. */
  predicate SetUp(h: Hwloc)
  {
    h.initRc == 0 && h.setXmlRc == 0 && h.ioTypesRc == 0 && h.setFlagsRc == 0 && h.loadRc == 0
  }

  /** The run gets as far as the domain loop. */
  predicate ReachesScan(argc: int, h: Hwloc)
  {
    argc == 2 && SetUp(h) && h.numaCount >= 0
  }

  /** The weight line printed for each domain, in index order. */
  function Weights(cpusets: seq<set<nat>>): (ws: seq<nat>)
    ensures |ws| == |cpusets|
    ensures forall w :: 0 <= w < |cpusets| ==> ws[w] == |cpusets[w]|
  {
    if cpusets == [] then []
    else Weights(cpusets[..|cpusets| - 1]) + [|cpusets[|cpusets| - 1]|]
  }

  /** The tool's behaviour, as written: the `overlap` flag starts false and
      nothing ever sets it, so a completed run always prints "NO OVERLAP". */
  function NumaRun(argc: int, h: Hwloc): Run
  {
    var overlap := false;
    if argc != 2 then Usage
    else if h.initRc != 0 then LoadFailed(Init, -1)
    else if h.setXmlRc != 0 then LoadFailed(SetXml, -1)
    else if h.ioTypesRc != 0 then LoadFailed(IoTypes, h.ioTypesRc)
    else if h.setFlagsRc != 0 then LoadFailed(SetFlags, -1)
    else if h.loadRc != 0 then LoadFailed(Load, -1)
    else if h.numaCount < 0 then BadCount(h.numaCount)
    else Completed(Weights(h.cpusets), Report(h.cpusets), !overlap)
  }

  /** The inner loop of `main`: compare domain `w`'s cpuset with the `n`
      cached cpusets and emit a finding for each one it intersects. */
  method CompareWithCache(cpusets: seq<set<nat>>, w: nat, numas: array<set<nat>>, n: nat)
    returns (row: seq<Finding>)
    requires w < |cpusets| && n == w <= numas.Length
    requires forall k :: 0 <= k < n ==> numas[k] == cpusets[k]
    ensures row == RowFindings(cpusets, w, n)
  {
    var cpuset := cpusets[w];
    row := [];
    var m := 0;
    while m < n
      invariant 0 <= m <= n
      invariant row == RowFindings(cpusets, w, m)
    {
      if cpuset * numas[m] != {} {
        var result := cpuset * numas[m];
        row := row + [Finding(w, m, result)];
      }
      m := m + 1;
    }
  }

  /** The domain loop of `main`: weigh each of the `width` domains, compare it
      with the cache, and append it to the cache of `CacheSlots` slots, which
      only holds enough room for `width <= CacheSlots`. */
  method ScanDomains(cpusets: seq<set<nat>>, width: nat) returns (weights: seq<nat>, findings: seq<Finding>)
    requires |cpusets| == width <= CacheSlots
    ensures weights == Weights(cpusets)
    ensures findings == Report(cpusets)
  {
    var numas := new set<nat>[CacheSlots];
    ghost var unset := numas[..];
    weights, findings := [], [];
    var n := 0;
    var w := 0;
    while w < width
      invariant 0 <= w <= width
      invariant n == w
      invariant forall k :: 0 <= k < n ==> numas[k] == cpusets[k]
      invariant forall k :: n <= k < CacheSlots ==> numas[k] == unset[k]
      invariant weights == Weights(cpusets[..w])
      invariant findings == ScanFindings(cpusets, w)
    {
      var cpuset := cpusets[w];
      var weight := |cpuset|;
      assert cpusets[..w + 1][..w] == cpusets[..w];
      weights := weights + [weight];
      var row := CompareWithCache(cpusets, w, numas, n);
      findings := findings + row;
      numas[n] := cpuset;
      n := n + 1;
      w := w + 1;
    }
    assert cpusets[..width] == cpusets;
  }

  /** The tool's `main`.  The width of the scan comes from hwloc; hwloc hands
      out one cpuset per NUMA object, and the cache write has no bound check,
      so a run that reaches the loop needs at most `CacheSlots` domains. */
  method NumaCheck(argc: int, h: Hwloc) returns (run: Run)
    requires ReachesScan(argc, h) ==> |h.cpusets| == h.numaCount <= CacheSlots
    ensures run == NumaRun(argc, h)
  {
    var overlap := false;
    if argc != 2 {
      return Usage;
    }
    if h.initRc != 0 {
      return LoadFailed(Init, -1);
    }
    if h.setXmlRc != 0 {
      return LoadFailed(SetXml, -1);
    }
    if h.ioTypesRc != 0 {
      return LoadFailed(IoTypes, h.ioTypesRc);
    }
    if h.setFlagsRc != 0 {
      return LoadFailed(SetFlags, -1);
    }
    if h.loadRc != 0 {
      return LoadFailed(Load, -1);
    }
    var num := h.numaCount;
    if num < 0 {
      return BadCount(num);
    }
    var weights, findings := ScanDomains(h.cpusets, num);
    run := Completed(weights, findings, !overlap);
  }

  // ---------------------------------------------------------------------
  // Properties of a run

  /** With the wrong number of arguments the tool stops before any hwloc call:
      the outcome is the same whatever the topology would have been. */
  lemma UsageBeforeTopology(argc: int, h: Hwloc, h': Hwloc)
    requires argc != 2
    ensures NumaRun(argc, h) == NumaRun(argc, h') == Usage
    ensures ExitCode(NumaRun(argc, h)) == -1
  {
  }

  /** A failed set-up call ends the run with a non-zero exit code, naming the
      first call that failed. */
  lemma SetUpFailureIsFatal(h: Hwloc)
    requires !SetUp(h)
    ensures NumaRun(2, h).LoadFailed?
    ensures ExitCode(NumaRun(2, h)) != 0
    ensures NumaRun(2, h).stage == Init <==> h.initRc != 0
    ensures NumaRun(2, h).stage == SetXml <==> h.initRc == 0 && h.setXmlRc != 0
    ensures NumaRun(2, h).stage == IoTypes <==> h.initRc == 0 && h.setXmlRc == 0 && h.ioTypesRc != 0
    ensures NumaRun(2, h).stage == SetFlags <==>
      h.initRc == 0 && h.setXmlRc == 0 && h.ioTypesRc == 0 && h.setFlagsRc != 0
    ensures NumaRun(2, h).stage == Load <==>
      h.initRc == 0 && h.setXmlRc == 0 && h.ioTypesRc == 0 && h.setFlagsRc == 0 && h.loadRc != 0
    ensures NumaRun(2, h).stage == IoTypes ==> ExitCode(NumaRun(2, h)) == h.ioTypesRc
    ensures NumaRun(2, h).stage != IoTypes ==> ExitCode(NumaRun(2, h)) == -1
  {
  }

  /** A negative NUMA count ends the run with -1 before any domain is scanned. */
  lemma NegativeCountRejected(h: Hwloc)
    requires SetUp(h) && h.numaCount < 0
    ensures NumaRun(2, h) == BadCount(h.numaCount)
    ensures ExitCode(NumaRun(2, h)) == -1
  {
  }

  /** What a completed run reports: the weight of every domain, every overlap
      exactly once in discovery order with its exact intersection, and always
      the "NO OVERLAP" summary. */
  lemma CompletedRun(argc: int, h: Hwloc)
    requires ReachesScan(argc, h)
    ensures NumaRun(argc, h).Completed?
    ensures ExitCode(NumaRun(argc, h)) == 0
    ensures |NumaRun(argc, h).weights| == |h.cpusets|
    ensures forall w :: 0 <= w < |h.cpusets| ==> NumaRun(argc, h).weights[w] == |h.cpusets[w]|
    ensures Sound(h.cpusets, NumaRun(argc, h).findings)
    ensures Complete(h.cpusets, NumaRun(argc, h).findings)
    ensures Ordered(NumaRun(argc, h).findings)
    ensures NumaRun(argc, h).noOverlapLine
  {
    ReportSound(h.cpusets);
    ReportComplete(h.cpusets);
    ReportOrdered(h.cpusets);
  }

  /** The summary as written is wrong: domain 2 sharing unit 0 with domain 0
      is reported, and the run still prints "NO OVERLAP". */
  lemma SummaryIgnoresOverlap()
    ensures NumaRun(2, Hwloc(0, 0, 0, 0, 0, 4, Scenario[2 := Block(2) + {0}])).findings == [Finding(2, 0, {0})]
    ensures NumaRun(2, Hwloc(0, 0, 0, 0, 0, 4, Scenario[2 := Block(2) + {0}])).noOverlapLine
  {
    SharedUnitScenario();
  }

  // ---------------------------------------------------------------------
  // The evidently intended summary

  /** The tool with the `overlap` flag raised whenever an intersection is
      reported: the summary line appears only when the report is empty. */
  function NumaRunCorrected(argc: int, h: Hwloc): Run
  {
    match NumaRun(argc, h)
    case Completed(weights, findings, _) => Completed(weights, findings, findings == [])
    case other => other
  }

  /** With the flag raised, "NO OVERLAP" is printed exactly when the sibling
      domains' cpusets are pairwise disjoint; nothing else about the run changes. */
  lemma CorrectedSummaryExact(argc: int, h: Hwloc)
    requires ReachesScan(argc, h)
    ensures NumaRunCorrected(argc, h).Completed?
    ensures NumaRunCorrected(argc, h).findings == NumaRun(argc, h).findings
    ensures NumaRunCorrected(argc, h).noOverlapLine <==> PairwiseDisjoint(h.cpusets)
  {
    EmptyReportIffDisjoint(h.cpusets);
  }
}
