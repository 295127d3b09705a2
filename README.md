# NUMA overlap check and sshot activation gate (OpenPMIx)

This project models two small pieces of sequential logic from OpenPMIx and
proves properties about them.

**The hwloc NUMA overlap diagnostic** (`test/util/numa.c`). The tool takes a
topology file as its one argument and sets up hwloc in stages. It then visits
the NUMA domains in index order. For each domain it records the weight of the
domain's cpuset (how many processing units it holds). It compares that cpuset
with the cached cpusets of all earlier domains and reports every non-empty
intersection. Then it copies the cpuset into the next slot of a 100-slot cache.
At the end it prints a summary line.

- `NumaReport` is the functional specification of the report. `RowFindings`
  is the inner loop, `ScanFindings` the outer loop and `Report` the whole scan.
  Its lemmas prove the report correct against a separate description:
  `Sound` (no false positives), `Complete` (no false negatives) and `Ordered`
  (discovery order, so no pair appears twice). `ReportUnique` shows that these
  three properties determine the report exactly.
- `NumaTool` treats everything hwloc returns as input, in the `Hwloc` datatype:
  each set-up call's return code, the NUMA object count and each object's
  cpuset. `NumaRun` is the run as a function. `NumaCheck` is `main` as a
  method. Its domain loop is `ScanDomains` and its inner loop is
  `CompareWithCache`. They keep the cache `numas` as an `array<set<nat>>` of
  100 slots, allocated locally just as `main` declares it.
  The loop invariants give the cache invariant: at the top of iteration `w`,
  `N == w`, slot `k` holds cpuset `k` for every `k < N`, and every slot from
  `N` on is untouched.

**The sshot pnet component's gate** (`src/mca/pnet/sshot/pnet_sshot_component.c`).
`component_open` is a chain of early-return guards. It is modelled as the
function `PnetSshot.Open` over these inputs: the component's `groupings` and
`num_groups` fields, whether the process is a server, the index returned by
the variable lookup, and the storage returned by reading the variable. The
`strcasestr` call becomes `StrCaseStr`, a verified search for the first
case-insensitive occurrence. `component_query` and `component_close` become
methods with out-values.

## Model

| member | source | states |
|---|---|---|
| `NumaReport.ReportSound` | test/util/numa.c:70-79 | every finding names a domain `w`, an earlier domain `m < w`, and their exact, non-empty intersection (the `intersects` test and the `and` of the two bitmaps) |
| `NumaReport.ReportComplete` | test/util/numa.c:63-79 | for every pair `m < w` whose cpusets intersect, the finding `(w, m, cpuset w ∩ cpuset m)` is in the report |
| `NumaReport.ReportOrdered` | test/util/numa.c:63-79 | findings are strictly ordered by scanned domain and then by earlier domain, so each pair is reported at most once, when its later index is scanned |
| `NumaReport.ReportedIff` | test/util/numa.c:70-79 | the pair `(w, m)` appears in the report if and only if `m < w < width` and the two cpusets intersect |
| `NumaReport.EmptyDomainNeverReported` | test/util/numa.c:71-73 | a domain with an empty cpuset appears in no finding, on either side |
| `NumaReport.EmptyReportIffDisjoint` | test/util/numa.c:63-84 | the report is empty if and only if the sibling cpusets are pairwise disjoint |
| `NumaReport.ReportUnique` | test/util/numa.c:62-84 | any sequence that is sound, complete and ordered equals the report, so the scan's output is fully determined by what it must contain |
| `NumaReport.DisjointScenario` | test/util/numa.c:63-84 | four domains of weight 8 with no shared units give an empty report |
| `NumaReport.SharedUnitScenario` | test/util/numa.c:70-79 | when domain 2 also claims unit 0 of domain 0, the report is exactly the single finding `(2, 0, {0})` |
| `NumaTool.Weights` | test/util/numa.c:65-68 | one weight per domain, in index order, each equal to the cardinality of that domain's cpuset |
| `NumaTool.CompareWithCache` | test/util/numa.c:70-79 | the inner loop over the cached slots `numas[0..N)` emits exactly the findings of the specification for domain `w`, given that slot `k` holds cpuset `k` |
| `NumaTool.ScanDomains` | test/util/numa.c:62-84 | the domain loop over a fresh 100-slot cache yields exactly the specified weights and report. Its invariant keeps `N == w`, slot `k` holding cpuset `k` for `k < N` and the slots from `N` on untouched. It requires `width <= 100`, because the write to `numas[N]` is not bound-checked |
| `NumaTool.NumaCheck` | test/util/numa.c:9-87 | `main`, with its guards and the domain loop, yields exactly `NumaRun` |
| `NumaTool.UsageBeforeTopology` | test/util/numa.c:20-23 | with `argc != 2` the outcome is a usage error with exit code -1, whatever the topology would have been |
| `NumaTool.SetUpFailureIsFatal` | test/util/numa.c:25-53 | any failing set-up call ends the run with a non-zero exit code. The stage it names is the first call whose code is non-zero, every earlier call having returned 0. The io-types stage returns hwloc's own code, and every other stage returns -1 |
| `NumaTool.NegativeCountRejected` | test/util/numa.c:55-59 | a negative NUMA count exits with -1 and scans no domain |
| `NumaTool.CompletedRun` | test/util/numa.c:55-87 | a run that reaches the loop exits 0, reports exactly one weight per domain, each its cpuset's cardinality, and a sound, complete, ordered report, and always prints "NO OVERLAP" |
| `NumaTool.SummaryIgnoresOverlap` | test/util/numa.c:85-87 | as written, a topology with one shared unit is reported and the run still prints "NO OVERLAP" (`overlap` is initialised false at line 18 and never assigned) |
| `NumaTool.CorrectedSummaryExact` | test/util/numa.c:85-87 | with the flag raised on each intersection, "NO OVERLAP" is printed if and only if the cpusets are pairwise disjoint, and the findings are unchanged |
| `PnetSshot.Fold` | src/mca/pnet/sshot/pnet_sshot_component.c:114 | C-locale case folding: only `A`–`Z` change, each to its lower-case letter |
| `PnetSshot.StartsWithNoCase` | src/mca/pnet/sshot/pnet_sshot_component.c:114 | true exactly when the pattern fits in the string and matches its first characters up to case |
| `PnetSshot.FindFrom` | src/mca/pnet/sshot/pnet_sshot_component.c:114 | returns the first case-insensitive match at or after the start position, or None when there is no match from there on |
| `PnetSshot.StrCaseStr` | src/mca/pnet/sshot/pnet_sshot_component.c:114 | `strcasestr`: returns the first position where the needle occurs up to case, and None exactly when it occurs nowhere |
| `PnetSshot.Open` | src/mca/pnet/sshot/pnet_sshot_component.c:95-119 | opening succeeds if and only if a grouping is configured, the process is a server, the `pmix_pnet` variable exists with a non-NULL, non-empty string, and that string contains "sshot" up to case |
| `PnetSshot.Query` | src/mca/pnet/sshot/pnet_sshot_component.c:122-127 | the query always succeeds, with priority 0 and the sshot module |
| `PnetSshot.Close` | src/mca/pnet/sshot/pnet_sshot_component.c:130-133 | closing always succeeds |
| `PnetSshot.DefaultsRefuse` | src/mca/pnet/sshot/pnet_sshot_component.c:100-104 | the built-in defaults (`groupings` NULL and `num_groups` 0, lines 68-69) make open fail for every other input |
| `PnetSshot.ClientRefused` | src/mca/pnet/sshot/pnet_sshot_component.c:100-104 | a process that is not a server always gets an error from open |
| `PnetSshot.AnyGroupingPasses` | src/mca/pnet/sshot/pnet_sshot_component.c:100 | any non-NULL `groupings` (even "") or any non-zero `num_groups` (even a negative one) passes the first guard. The outcome then depends only on the selection variable |
| `PnetSshot.UnsetSelectionRefused` | src/mca/pnet/sshot/pnet_sshot_component.c:109-118 | a missing variable, a NULL storage, a NULL string or an empty string makes open fail |
| `PnetSshot.SelectionAccepted` | src/mca/pnet/sshot/pnet_sshot_component.c:113-118 | the selections "SSHOT" and "x,sshot" are accepted once the earlier guards pass |
| `PnetSshot.SelectionRefused` | src/mca/pnet/sshot/pnet_sshot_component.c:113-118 | the selections "ssh" and "tcp,ofi" are refused even when the earlier guards pass |

## Left out

- hwloc topology construction and loading are foreign library calls. Their return codes and results are fields of `NumaTool.Hwloc`, so the model takes the cpusets as input.
- The model assumes hwloc 2.x. It therefore includes the io-types filter stage that `HWLOC_API_VERSION >= 0x20000` compiles in.
- All `fprintf` output and the `hwloc_bitmap_asprintf` formatting are left out. Weights and findings are modelled as data. The per-domain weight lines and the finding lines are interleaved on stderr, and that order can be recovered from each finding's domain index.
- Bitmap allocation, copy and free are left out, along with the bitmaps and topology handle leaked on the success path. They are memory management with no behaviour to state.
- A cpuset is a finite `set<nat>`. hwloc's infinite bitmaps, whose weight is -1, are not modelled.
- `ScanDomains` does not model what happens with more than 100 domains, which would write past the end of `numas`. Its precondition requires at most 100 domains. `NumaCheck` requires this only of runs that reach the loop.
- `NumaCheck` requires that hwloc hands out exactly one cpuset per NUMA object it counted. That is a guarantee of the library, not of this code.
- `component_register` and MCA variable registration and lookup are plugin machinery. Their results enter `Open` only as input values.
- The linker-facing component struct and its version macros (lines 45-67) are left out.
- The node-group partitioning that `groupings` and `num_groups` configure is left out, with any caching of it. Its source is not part of this model.
- The process role (`PMIX_PROC_IS_SERVER`) is a boolean input.
- `strcasestr` is modelled with C-locale case folding only.
- C strings are modelled as `CString`, the character sequences without a NUL. A string ends at its first NUL, so any embedded NUL lies outside the model.

## Findings

| source | as written | input that shows it | evidently intended | confidence | as-written member | corrected member |
|---|---|---|---|---|---|---|
| test/util/numa.c:85-87 | `overlap` is set to false at line 18 and never assigned, so "NO OVERLAP" is printed on every completed run | four domains of units 0-7, 8-15, 16-23 and 24-31, where domain 2 also claims unit 0: the report holds `(2, 0, {0})` and the summary still says NO OVERLAP | set `overlap` when an intersection is reported, so the summary appears only when the domains are disjoint. `NumaTool.NumaRunCorrected` is that definition | high; not executed | `NumaTool.SummaryIgnoresOverlap` | `NumaTool.CorrectedSummaryExact` |
