/** Functional specification of the NUMA cpuset overlap scan of the hwloc
    diagnostic tool: domains are visited in index order, each one is compared
    with every domain visited before it, and every non-empty intersection is
    reported as a finding.  The lemmas characterise the report independently
    of how it is computed: sound, complete, strictly ordered, and unique. */
module NumaReport {

  /** One reported overlap: domain `domain` (the one being scanned) shares the
      processing units `common` with the earlier domain `earlier`. */
  datatype Finding = Finding(domain: nat, earlier: nat, common: set<nat>)

  /** The processing units domains `w` and `m` both claim. */
  function Common(cpusets: seq<set<nat>>, w: nat, m: nat): set<nat>
    requires w < |cpusets| && m < |cpusets|
  {
    cpusets[w] * cpusets[m]
  }

  /** Findings of the inner loop for domain `w` after comparing it with the
      cached domains `0 .. n-1`, in the order they are emitted. */
  function RowFindings(cpusets: seq<set<nat>>, w: nat, n: nat): seq<Finding>
    requires w < |cpusets| && n <= w
  {
    if n == 0 then []
    else
      RowFindings(cpusets, w, n - 1) +
      (if Common(cpusets, w, n - 1) != {} then [Finding(w, n - 1, Common(cpusets, w, n - 1))] else [])
  }

  /** Findings emitted once domains `0 .. k-1` have been scanned. */
  function ScanFindings(cpusets: seq<set<nat>>, k: nat): seq<Finding>
    requires k <= |cpusets|
  {
    if k == 0 then [] else ScanFindings(cpusets, k - 1) + RowFindings(cpusets, k - 1, k - 1)
  }

  /** The whole overlap report for a topology's NUMA cpusets. */
  function Report(cpusets: seq<set<nat>>): seq<Finding>
  {
    ScanFindings(cpusets, |cpusets|)
  }

  // ---------------------------------------------------------------------
  // Independent description of a correct report

  /** `f` names a later domain, an earlier one, and their exact, non-empty intersection. */
  ghost predicate Genuine(cpusets: seq<set<nat>>, f: Finding)
  {
    f.earlier < f.domain < |cpusets| &&
    f.common == Common(cpusets, f.domain, f.earlier) &&
    f.common != {}
  }

  /** No false positives. */
  ghost predicate Sound(cpusets: seq<set<nat>>, r: seq<Finding>)
  {
    forall i :: 0 <= i < |r| ==> Genuine(cpusets, r[i])
  }

  /** No false negatives: every intersecting pair, later index first, is reported. */
  ghost predicate Complete(cpusets: seq<set<nat>>, r: seq<Finding>)
  {
    forall w, m :: 0 <= m < w < |cpusets| && Common(cpusets, w, m) != {} ==>
      Finding(w, m, Common(cpusets, w, m)) in r
  }

  /** Discovery order: by scanned domain, then by earlier domain. */
  predicate Precedes(f: Finding, g: Finding)
  {
    f.domain < g.domain || (f.domain == g.domain && f.earlier < g.earlier)
  }

  /** Strictly increasing in discovery order, so no pair appears twice. */
  predicate Ordered(r: seq<Finding>)
  {
    forall i, j :: 0 <= i < j < |r| ==> Precedes(r[i], r[j])
  }

  /** Siblings that claim disjoint processing units: the consistent case. */
  ghost predicate PairwiseDisjoint(cpusets: seq<set<nat>>)
  {
    forall w, m :: 0 <= m < w < |cpusets| ==> Common(cpusets, w, m) == {}
  }

  // ---------------------------------------------------------------------
  // The report meets the description

  lemma {:induction false} RowFacts(cpusets: seq<set<nat>>, w: nat, n: nat)
    requires w < |cpusets| && n <= w
    ensures forall i :: 0 <= i < |RowFindings(cpusets, w, n)| ==>
      RowFindings(cpusets, w, n)[i].domain == w &&
      RowFindings(cpusets, w, n)[i].earlier < n &&
      Genuine(cpusets, RowFindings(cpusets, w, n)[i])
    ensures Ordered(RowFindings(cpusets, w, n))
    ensures forall m :: 0 <= m < n && Common(cpusets, w, m) != {} ==>
      Finding(w, m, Common(cpusets, w, m)) in RowFindings(cpusets, w, n)
  {
    if n > 0 {
      RowFacts(cpusets, w, n - 1);
    }
  }

  lemma {:induction false} ScanFacts(cpusets: seq<set<nat>>, k: nat)
    requires k <= |cpusets|
    ensures forall i :: 0 <= i < |ScanFindings(cpusets, k)| ==>
      ScanFindings(cpusets, k)[i].domain < k && Genuine(cpusets, ScanFindings(cpusets, k)[i])
    ensures Ordered(ScanFindings(cpusets, k))
    ensures forall w, m :: 0 <= m < w < k && Common(cpusets, w, m) != {} ==>
      Finding(w, m, Common(cpusets, w, m)) in ScanFindings(cpusets, k)
  {
    if k > 0 {
      var before, row := ScanFindings(cpusets, k - 1), RowFindings(cpusets, k - 1, k - 1);
      ScanFacts(cpusets, k - 1);
      RowFacts(cpusets, k - 1, k - 1);
      assert ScanFindings(cpusets, k) == before + row;
      forall w, m | 0 <= m < w < k && Common(cpusets, w, m) != {}
        ensures Finding(w, m, Common(cpusets, w, m)) in before + row
      {
        if w < k - 1 {
          assert Finding(w, m, Common(cpusets, w, m)) in before;
        } else {
          assert Finding(w, m, Common(cpusets, w, m)) in row;
        }
      }
      forall i, j | 0 <= i < j < |before + row|
        ensures Precedes((before + row)[i], (before + row)[j])
      {
        if j < |before| {
          assert Precedes(before[i], before[j]);
        } else if i >= |before| {
          assert Precedes(row[i - |before|], row[j - |before|]);
        } else {
          assert before[i].domain < k - 1 && row[j - |before|].domain == k - 1;
        }
      }
    }
  }

  /** Every reported finding is a genuine overlap. */
  lemma ReportSound(cpusets: seq<set<nat>>)
    ensures Sound(cpusets, Report(cpusets))
  {
    ScanFacts(cpusets, |cpusets|);
  }

  /** Every overlapping pair is reported, with its exact intersection. */
  lemma ReportComplete(cpusets: seq<set<nat>>)
    ensures Complete(cpusets, Report(cpusets))
  {
    ScanFacts(cpusets, |cpusets|);
  }

  /** Findings come in discovery order, and each unordered pair of domains is
      reported at most once, when its later index is scanned. */
  lemma ReportOrdered(cpusets: seq<set<nat>>)
    ensures Ordered(Report(cpusets))
    ensures forall i, j ::
      (0 <= i < |Report(cpusets)| && 0 <= j < |Report(cpusets)| &&
       Report(cpusets)[i].domain == Report(cpusets)[j].domain &&
       Report(cpusets)[i].earlier == Report(cpusets)[j].earlier) ==> i == j
  {
    ScanFacts(cpusets, |cpusets|);
  }

  /** A pair of domains appears in the report exactly when the later one's
      cpuset intersects the earlier one's. */
  lemma ReportedIff(cpusets: seq<set<nat>>, w: nat, m: nat)
    ensures (exists i :: 0 <= i < |Report(cpusets)| &&
              Report(cpusets)[i].domain == w && Report(cpusets)[i].earlier == m)
        <==> (m < w < |cpusets| && Common(cpusets, w, m) != {})
  {
    ReportSound(cpusets);
    ReportComplete(cpusets);
    var r := Report(cpusets);
    if m < w < |cpusets| && Common(cpusets, w, m) != {} {
      var f := Finding(w, m, Common(cpusets, w, m));
      assert f in r;
      var i :| 0 <= i < |r| && r[i] == f;
      assert r[i].domain == w && r[i].earlier == m;
    }
  }

  /** A domain with an empty cpuset takes part in no finding. */
  lemma EmptyDomainNeverReported(cpusets: seq<set<nat>>, k: nat)
    requires k < |cpusets| && cpusets[k] == {}
    ensures forall i :: 0 <= i < |Report(cpusets)| ==>
      Report(cpusets)[i].domain != k && Report(cpusets)[i].earlier != k
  {
    ReportSound(cpusets);
  }

  /** The report is empty exactly when no two sibling domains share a unit. */
  lemma EmptyReportIffDisjoint(cpusets: seq<set<nat>>)
    ensures Report(cpusets) == [] <==> PairwiseDisjoint(cpusets)
  {
    ReportSound(cpusets);
    ReportComplete(cpusets);
    if Report(cpusets) != [] {
      assert Genuine(cpusets, Report(cpusets)[0]);
    }
  }

  // ---------------------------------------------------------------------
  // The description determines the report

  lemma HeadIsElement(s: seq<Finding>)
    requires s != []
    ensures s[0] in s
  {
  }

  lemma {:induction false} OrderedSameElementsEqual(a: seq<Finding>, b: seq<Finding>)
    requires Ordered(a) && Ordered(b)
    requires forall f :: f in a <==> f in b
    ensures a == b
    decreases |a|
  {
    if a == [] || b == [] {
      if a != [] || b != [] {
        HeadIsElement(if a != [] then a else b);
        assert false;
      }
    } else {
      assert a[0] in b;
      assert b != [];
      assert b[0] in a;
      var i :| 0 <= i < |a| && a[i] == b[0];
      var j :| 0 <= j < |b| && b[j] == a[0];
      assert i == 0;
      assert a[0] == b[0];
      forall f ensures f in a[1..] <==> f in b[1..] {
        if f in a[1..] {
          var p :| 1 <= p < |a| && a[p] == f;
          assert Precedes(a[0], a[p]);
          assert f in b && f != b[0];
          var q :| 0 <= q < |b| && b[q] == f;
          assert q != 0;
          assert b[q] == b[1..][q - 1];
        }
        if f in b[1..] {
          var q :| 1 <= q < |b| && b[q] == f;
          assert Precedes(b[0], b[q]);
          assert f in a && f != a[0];
          var p :| 0 <= p < |a| && a[p] == f;
          assert p != 0;
          assert a[p] == a[1..][p - 1];
        }
      }
      OrderedSameElementsEqual(a[1..], b[1..]);
      assert a == [a[0]] + a[1..] && b == [b[0]] + b[1..];
    }
  }

  /** Any sound, complete and ordered sequence of findings is the report:
      the three properties pin the scan's output down completely. */
  lemma ReportUnique(cpusets: seq<set<nat>>, r: seq<Finding>)
    requires Sound(cpusets, r) && Complete(cpusets, r) && Ordered(r)
    ensures r == Report(cpusets)
  {
    var rep := Report(cpusets);
    ReportSound(cpusets);
    ReportComplete(cpusets);
    ReportOrdered(cpusets);
    forall f ensures f in r <==> f in rep {
      if f in r {
        var i :| 0 <= i < |r| && r[i] == f;
        assert Genuine(cpusets, r[i]);
        assert f == Finding(f.domain, f.earlier, Common(cpusets, f.domain, f.earlier));
      }
      if f in rep {
        var i :| 0 <= i < |rep| && rep[i] == f;
        assert Genuine(cpusets, rep[i]);
        assert f == Finding(f.domain, f.earlier, Common(cpusets, f.domain, f.earlier));
      }
    }
    OrderedSameElementsEqual(r, rep);
  }

  // ---------------------------------------------------------------------
  // Scenario: four NUMA domains of eight processing units each

  /** The processing units `lo .. lo+n-1`. */
  function Range(lo: nat, n: nat): (r: set<nat>)
    ensures forall p :: p in r <==> lo <= p < lo + n
    ensures |r| == n
  {
    if n == 0 then {} else Range(lo, n - 1) + {lo + n - 1}
  }

  predicate InBlock(d: nat, p: nat)
  {
    8 * d <= p < 8 * d + 8
  }

  /** Processing units `8*d .. 8*d+7`, the cpuset of domain `d` in the scenario. */
  function Block(d: nat): (b: set<nat>)
    ensures forall p :: p in b <==> InBlock(d, p)
  {
    set p: nat | p < 8 * d + 8 && InBlock(d, p)
  }

  lemma BlockSize(d: nat)
    ensures |Block(d)| == 8
  {
    assert Block(d) == Range(8 * d, 8);
  }

  lemma BlocksDisjoint(d: nat, e: nat)
    requires d != e
    ensures Block(d) * Block(e) == {}
  {
  }

  const Scenario: seq<set<nat>> := [Block(0), Block(1), Block(2), Block(3)]

  /** Disjoint domains of weight eight give an empty report. */
  lemma DisjointScenario()
    ensures forall d :: 0 <= d < |Scenario| ==> |Scenario[d]| == 8
    ensures Report(Scenario) == []
  {
    BlockSize(0); BlockSize(1); BlockSize(2); BlockSize(3);
    forall w, m | 0 <= m < w < 4 ensures Common(Scenario, w, m) == {} {
      BlocksDisjoint(w, m);
    }
    EmptyReportIffDisjoint(Scenario);
  }

  /** Domain 2 also claiming unit 0 of domain 0 gives exactly one finding,
      reported when domain 2 is scanned against domain 0. */
  lemma SharedUnitScenario()
    ensures Report(Scenario[2 := Block(2) + {0}]) == [Finding(2, 0, {0})]
  {
    var c := Scenario[2 := Block(2) + {0}];
    BlocksDisjoint(1, 0); BlocksDisjoint(2, 0); BlocksDisjoint(3, 0);
    BlocksDisjoint(2, 1); BlocksDisjoint(3, 1); BlocksDisjoint(3, 2);
    assert 0 in Block(0) && 0 !in Block(1) && 0 !in Block(3);
    assert Common(c, 2, 0) == {0};
    assert RowFindings(c, 0, 0) == [] && RowFindings(c, 1, 1) == [];
    assert ScanFindings(c, 1) == [];
    assert RowFindings(c, 2, 1) == [Finding(2, 0, {0})];
    assert RowFindings(c, 2, 2) == [Finding(2, 0, {0})];
    assert RowFindings(c, 3, 1) == [];
    assert RowFindings(c, 3, 2) == [];
    assert RowFindings(c, 3, 3) == [];
    assert ScanFindings(c, 2) == [];
    assert ScanFindings(c, 3) == [Finding(2, 0, {0})];
  }
}
