/**
 * The runs writeSecondaryStructure finds in one chain, described by the indices of their
 * first and last residues: the maximal stretches of residues of the pass (of one helix
 * kind, for the helix pass). The pass as written names as a run's last residue the residue
 * that interrupts it, unless the run reaches the end of the chain; the corrected pass names
 * the run's own last residue.
 */
module PdbWriteSSRuns {
  import opened Wrappers
  import opened Molecule
  import opened PdbWriteSS

  /** A run of a chain's residues, by the index of its first and of its last residue. */
  datatype Span = Span(first: nat, last: nat)

  /** Residue i is of the pass: a helix of any kind, or a strand. */
  predicate InPass(p: Pass, rs: seq<SSResidue>, i: nat)
    requires i < |rs|
  {
    p.member(rs[i].ss)
  }

  /** Residue m lies in the run. */
  predicate InSpan(sp: Span, m: nat) {
    sp.first <= m <= sp.last
  }

  /** Residue i continues a run that starts at residue `first`. */
  predicate Continues(p: Pass, rs: seq<SSResidue>, first: nat, i: nat)
    requires first < |rs| && i < |rs|
  {
    InPass(p, rs, i) && !(p.splits && rs[i].ss != rs[first].ss)
  }

  /** Residue i begins a run: a residue of the pass that its predecessor, if any, does not continue. */
  predicate Begins(p: Pass, rs: seq<SSResidue>, i: nat)
    requires i < |rs|
  {
    InPass(p, rs, i) && (i == 0 || !InPass(p, rs, i - 1) || (p.splits && rs[i - 1].ss != rs[i].ss))
  }

  /** A maximal run: it begins at `first`, every residue through `last` continues it, the next one does not. */
  predicate MaximalRun(p: Pass, rs: seq<SSResidue>, sp: Span) {
    sp.first <= sp.last < |rs| && Begins(p, rs, sp.first) &&
    (forall m :: sp.first <= m <= sp.last ==> Continues(p, rs, sp.first, m)) &&
    (sp.last + 1 == |rs| || !Continues(p, rs, sp.first, sp.last + 1))
  }

  /** Every residue of the pass lies in one of the runs. */
  predicate Covered(p: Pass, rs: seq<SSResidue>, sps: seq<Span>, upTo: nat)
    requires upTo <= |rs|
  {
    forall m :: 0 <= m < upTo && InPass(p, rs, m) ==> exists k :: 0 <= k < |sps| && InSpan(sps[k], m)
  }

  /** Run k of the runs is maximal. */
  predicate MaximalAt(p: Pass, rs: seq<SSResidue>, sps: seq<Span>, k: nat) {
    k < |sps| && MaximalRun(p, rs, sps[k])
  }

  /** Every one of the runs is maximal. */
  predicate AllMaximal(p: Pass, rs: seq<SSResidue>, sps: seq<Span>) {
    forall k: nat :: k < |sps| ==> MaximalAt(p, rs, sps, k)
  }

  /** Run k, if there is one before it, starts after that one ends. */
  predicate OrderedAt(sps: seq<Span>, k: nat) {
    0 < k < |sps| ==> sps[k - 1].last < sps[k].first
  }

  /** The runs are in the order of the chain and do not overlap. */
  ghost predicate Ordered(sps: seq<Span>) {
    forall k: nat :: OrderedAt(sps, k)
  }

  /** The runs of a chain: maximal, in order, and every residue of the pass in one of them. */
  ghost predicate RunsOfChain(p: Pass, rs: seq<SSResidue>, sps: seq<Span>) {
    AllMaximal(p, rs, sps) && Ordered(sps) && Covered(p, rs, sps, |rs|)
  }

  // ---------------------------------------------------------------- the runs, by index

  /** The scan by index: in a run or not, the run's first residue, the runs closed so far. */
  datatype SpanScan = SpanScan(inRun: bool, first: nat, spans: seq<Span>)

  /** Residue i, with the decisions of the writer's inner loop. */
  function SpanStep(p: Pass, rs: seq<SSResidue>, f: SpanScan, i: nat): SpanScan
    requires i < |rs| && (f.inRun ==> f.first < i)
  {
    if p.member(rs[i].ss) then
      if !f.inRun then SpanScan(true, i, f.spans)
      else if p.splits && rs[i].ss != rs[f.first].ss then SpanScan(true, i, f.spans + [Span(f.first, i - 1)])
      else f
    else if f.inRun then SpanScan(false, f.first, f.spans + [Span(f.first, i - 1)])
    else f
  }

  /** The scan of the first n residues. */
  function SpanScanUpTo(p: Pass, rs: seq<SSResidue>, n: nat): (f: SpanScan)
    requires n <= |rs|
    ensures f.inRun ==> f.first < n
    ensures forall k :: 0 <= k < |f.spans| ==> f.spans[k].first <= f.spans[k].last && f.spans[k].last + 1 < n
    decreases n
  {
    if n == 0 then SpanScan(false, 0, []) else SpanStep(p, rs, SpanScanUpTo(p, rs, n - 1), n - 1)
  }

  /** The runs of a chain: those the scan closed, then the one still open at the chain's end. */
  function SpansOf(p: Pass, rs: seq<SSResidue>): (sps: seq<Span>)
    ensures forall k :: 0 <= k < |sps| ==> sps[k].first <= sps[k].last < |rs|
  {
    var f := SpanScanUpTo(p, rs, |rs|);
    if f.inRun then f.spans + [Span(f.first, |rs| - 1)] else f.spans
  }

  /** Every run ends before residue n - 1, which therefore decides whether it is maximal. */
  predicate EndsBefore(sps: seq<Span>, n: nat) {
    forall k :: 0 <= k < |sps| ==> sps[k].last + 1 < n
  }

  /** The run still open after n residues begins at its first residue, after the closed runs, and goes on through n - 1. */
  predicate OpenRun(p: Pass, rs: seq<SSResidue>, n: nat, f: SpanScan)
    requires n <= |rs|
  {
    f.inRun ==>
      f.first < n && (|f.spans| > 0 ==> f.spans[|f.spans| - 1].last < f.first) &&
      Begins(p, rs, f.first) && forall m :: f.first <= m < n ==> Continues(p, rs, f.first, m)
  }

  /** With no run open after n residues, residue n - 1 is not of the pass. */
  predicate Idle(p: Pass, rs: seq<SSResidue>, n: nat, f: SpanScan)
    requires n <= |rs|
  {
    !f.inRun && n > 0 ==> !InPass(p, rs, n - 1)
  }

  /** Every residue of the pass among the first n lies in a closed run or in the open one. */
  predicate CoveredSoFar(p: Pass, rs: seq<SSResidue>, n: nat, f: SpanScan)
    requires n <= |rs|
  {
    forall m :: 0 <= m < n && InPass(p, rs, m) ==>
      (f.inRun && f.first <= m) || exists k :: 0 <= k < |f.spans| && InSpan(f.spans[k], m)
  }

  /** What holds of the scan after n residues. */
  ghost predicate ScanInv(p: Pass, rs: seq<SSResidue>, n: nat, f: SpanScan)
    requires n <= |rs|
  {
    AllMaximal(p, rs, f.spans) && EndsBefore(f.spans, n) && Ordered(f.spans) &&
    OpenRun(p, rs, n, f) && Idle(p, rs, n, f) && CoveredSoFar(p, rs, n, f)
  }

  lemma SnocMaximal(p: Pass, rs: seq<SSResidue>, sps: seq<Span>, sp: Span)
    requires AllMaximal(p, rs, sps) && MaximalRun(p, rs, sp)
    ensures AllMaximal(p, rs, sps + [sp])
  {
    forall k: nat | k < |sps| + 1
      ensures MaximalAt(p, rs, sps + [sp], k)
    {
      if k < |sps| {
        assert MaximalAt(p, rs, sps, k);
        assert (sps + [sp])[k] == sps[k];
      }
    }
  }

  lemma SnocEndsBefore(sps: seq<Span>, sp: Span, m: nat, n: nat)
    requires EndsBefore(sps, m) && m <= n && sp.last + 1 < n
    ensures EndsBefore(sps + [sp], n)
  {
    forall k | 0 <= k < |sps| + 1
      ensures (sps + [sp])[k].last + 1 < n
    {
      if k < |sps| {
        assert (sps + [sp])[k] == sps[k];
      }
    }
  }

  lemma SnocOrdered(sps: seq<Span>, sp: Span)
    requires Ordered(sps) && (|sps| > 0 ==> sps[|sps| - 1].last < sp.first)
    ensures Ordered(sps + [sp])
  {
    forall k: nat
      ensures OrderedAt(sps + [sp], k)
    {
      if 0 < k < |sps| {
        assert OrderedAt(sps, k);
        assert (sps + [sp])[k] == sps[k] && (sps + [sp])[k - 1] == sps[k - 1];
      }
    }
  }

  /** The open run, once closed at `last`, holds the residues of the pass it covered. */
  lemma SnocCovered(p: Pass, rs: seq<SSResidue>, n: nat, f: SpanScan, last: nat)
    requires n <= |rs| && n <= last + 1 && f.inRun && CoveredSoFar(p, rs, n, f)
    ensures Covered(p, rs, f.spans + [Span(f.first, last)], n)
  {
    var sps := f.spans + [Span(f.first, last)];
    forall m | 0 <= m < n && InPass(p, rs, m)
      ensures exists k :: 0 <= k < |sps| && InSpan(sps[k], m)
    {
      if f.first <= m {
        assert InSpan(sps[|f.spans|], m);
      } else {
        var k :| 0 <= k < |f.spans| && InSpan(f.spans[k], m);
        assert sps[k] == f.spans[k];
      }
    }
  }

  /** The open run is maximal once closed before the first residue i that does not continue it. */
  lemma ClosedMaximal(p: Pass, rs: seq<SSResidue>, i: nat, f: SpanScan)
    requires i <= |rs| && f.inRun && OpenRun(p, rs, i, f) && (i < |rs| ==> !Continues(p, rs, f.first, i))
    ensures MaximalRun(p, rs, Span(f.first, i - 1))
  {
  }

  /** A run closed at residue i, the first one that does not continue it. */
  lemma CloseSpan(p: Pass, rs: seq<SSResidue>, i: nat, f: SpanScan)
    requires i < |rs| && ScanInv(p, rs, i, f) && f.inRun && !Continues(p, rs, f.first, i)
    ensures var sps := f.spans + [Span(f.first, i - 1)];
            AllMaximal(p, rs, sps) && EndsBefore(sps, i + 1) && Ordered(sps) && Covered(p, rs, sps, i)
  {
    var sp := Span(f.first, i - 1);
    ClosedMaximal(p, rs, i, f);
    SnocMaximal(p, rs, f.spans, sp);
    SnocEndsBefore(f.spans, sp, i, i + 1);
    SnocOrdered(f.spans, sp);
    SnocCovered(p, rs, i, f, i - 1);
  }

  /** Residue i begins a run when no run is open before it or the open one does not take it. */
  lemma BeginsAt(p: Pass, rs: seq<SSResidue>, i: nat, f: SpanScan)
    requires i < |rs| && OpenRun(p, rs, i, f) && Idle(p, rs, i, f) && InPass(p, rs, i)
    requires !f.inRun || !Continues(p, rs, f.first, i)
    ensures Begins(p, rs, i)
  {
    if f.inRun {
      assert Continues(p, rs, f.first, i - 1);
    }
  }

  /** A run opened at residue i: a residue of the pass that its predecessor does not continue. */
  lemma OpenSpan(p: Pass, rs: seq<SSResidue>, i: nat, f: SpanScan, sps: seq<Span>)
    requires i < |rs| && ScanInv(p, rs, i, f) && InPass(p, rs, i)
    requires !f.inRun || !Continues(p, rs, f.first, i)
    requires AllMaximal(p, rs, sps) && EndsBefore(sps, i + 1) && Ordered(sps) && Covered(p, rs, sps, i)
    ensures ScanInv(p, rs, i + 1, SpanScan(true, i, sps))
  {
    BeginsAt(p, rs, i, f);
    if |sps| > 0 {
      assert sps[|sps| - 1].last + 1 < i + 1;
    }
    assert OpenRun(p, rs, i + 1, SpanScan(true, i, sps));
  }

  lemma ScanInvStep(p: Pass, rs: seq<SSResidue>, i: nat, f: SpanScan)
    requires i < |rs| && ScanInv(p, rs, i, f)
    ensures ScanInv(p, rs, i + 1, SpanStep(p, rs, f, i))
  {
    if p.member(rs[i].ss) {
      if !f.inRun {
        OpenSpan(p, rs, i, f, f.spans);
      } else if p.splits && rs[i].ss != rs[f.first].ss {
        CloseSpan(p, rs, i, f);
        OpenSpan(p, rs, i, f, f.spans + [Span(f.first, i - 1)]);
      }
    } else if f.inRun {
      CloseSpan(p, rs, i, f);
    }
  }

  lemma {:induction false} ScanInvUpTo(p: Pass, rs: seq<SSResidue>, n: nat)
    requires n <= |rs|
    ensures ScanInv(p, rs, n, SpanScanUpTo(p, rs, n))
    decreases n
  {
    if n > 0 {
      ScanInvUpTo(p, rs, n - 1);
      ScanInvStep(p, rs, n - 1, SpanScanUpTo(p, rs, n - 1));
    }
  }

  /** The runs the scan finds are exactly the maximal runs of the chain, in order. */
  lemma SpansAreRuns(p: Pass, rs: seq<SSResidue>)
    ensures RunsOfChain(p, rs, SpansOf(p, rs))
  {
    var f := SpanScanUpTo(p, rs, |rs|);
    ScanInvUpTo(p, rs, |rs|);
    if f.inRun {
      var sp := Span(f.first, |rs| - 1);
      ClosedMaximal(p, rs, |rs|, f);
      SnocMaximal(p, rs, f.spans, sp);
      SnocOrdered(f.spans, sp);
      SnocCovered(p, rs, |rs|, f, |rs| - 1);
    }
  }

  // ---------------------------------------------------------------- the records of a chain

  /** The residue the pass as written names as the end of a run: the next one, if the chain goes on. */
  function EndWritten(rs: seq<SSResidue>, sp: Span): SSResidue
    requires sp.last < |rs|
  {
    if sp.last + 1 < |rs| then rs[sp.last + 1] else rs[sp.last]
  }

  /** The records of runs numbered from count0 + 1, ended as written or, when `fixed`, at their last residue. */
  function ChainRuns(chain: string, rs: seq<SSResidue>, sps: seq<Span>, count0: nat, fixed: bool): (runs: seq<Run>)
    requires forall k :: 0 <= k < |sps| ==> sps[k].first <= sps[k].last < |rs|
    ensures |runs| == |sps|
    decreases |sps|
  {
    if sps == [] then []
    else
      var sp := sps[|sps| - 1];
      var endR := if fixed then rs[sp.last] else EndWritten(rs, sp);
      ChainRuns(chain, rs, sps[..|sps| - 1], count0, fixed) +
      [Run(count0 + |sps|, chain, rs[sp.first].name, rs[sp.first].id, endR.name, endR.id, rs[sp.first].ss)]
  }

  lemma ChainRunsAppend(chain: string, rs: seq<SSResidue>, sps: seq<Span>, sp: Span, count0: nat, fixed: bool)
    requires forall k :: 0 <= k < |sps| ==> sps[k].first <= sps[k].last < |rs|
    requires sp.first <= sp.last < |rs|
    ensures var endR := if fixed then rs[sp.last] else EndWritten(rs, sp);
            ChainRuns(chain, rs, sps + [sp], count0, fixed) ==
            ChainRuns(chain, rs, sps, count0, fixed) +
            [Run(count0 + |sps| + 1, chain, rs[sp.first].name, rs[sp.first].id, endR.name, endR.id, rs[sp.first].ss)]
  {
    assert (sps + [sp])[..|sps|] == sps;
  }

  /**
   * One residue of the corrected inner loop: a run that a residue interrupts ends at the
   * residue before it.
   */
  function ScanResidueFixed(p: Pass, s: Scan, chain: string, prev: SSResidue, r: SSResidue): Scan {
    if p.member(r.ss) then
      if !s.inRun then Started(s, r)
      else if p.splits && r.ss != s.curType then Started(s.(runs := s.runs + [Ended(s, chain, prev)]), r)
      else s
    else if s.inRun then s.(runs := s.runs + [Ended(s, chain, prev)], inRun := false)
    else s
  }

  /** The corrected inner loop; the residue before the first one is never needed, as no run is open there. */
  function ScanResiduesFixed(p: Pass, s: Scan, chain: string, rs: seq<SSResidue>): Scan
    decreases |rs|
  {
    if rs == [] then s
    else
      var prev := if |rs| >= 2 then rs[|rs| - 2] else rs[0];
      ScanResidueFixed(p, ScanResiduesFixed(p, s, chain, rs[..|rs| - 1]), chain, prev, rs[|rs| - 1])
  }

  /** The writer's scan after n residues, against the scan by index. */
  predicate Mirrors(s0: Scan, chain: string, rs: seq<SSResidue>, n: nat, s: Scan, f: SpanScan, fixed: bool)
    requires n <= |rs|
    requires f.inRun ==> f.first < n
    requires forall k :: 0 <= k < |f.spans| ==> f.spans[k].first <= f.spans[k].last && f.spans[k].last + 1 < n
  {
    s.inRun == f.inRun &&
    (f.inRun ==> s.startName == rs[f.first].name && s.startId == rs[f.first].id && s.curType == rs[f.first].ss) &&
    s.count == s0.count + |f.spans| + (if f.inRun then 1 else 0) &&
    s.runs == s0.runs + ChainRuns(chain, rs, f.spans, s0.count, fixed)
  }

  /** The record the writer appends when the open run ends, with `endR` as its last residue. */
  lemma MirrorEnd(s0: Scan, chain: string, rs: seq<SSResidue>, i: nat, s: Scan, f: SpanScan, fixed: bool, endR: SSResidue)
    requires i <= |rs| && f.inRun && f.first < i
    requires forall k :: 0 <= k < |f.spans| ==> f.spans[k].first <= f.spans[k].last && f.spans[k].last + 1 < i
    requires Mirrors(s0, chain, rs, i, s, f, fixed)
    requires endR == if fixed then rs[i - 1] else EndWritten(rs, Span(f.first, i - 1))
    ensures s.runs + [Ended(s, chain, endR)] ==
            s0.runs + ChainRuns(chain, rs, f.spans + [Span(f.first, i - 1)], s0.count, fixed)
  {
    ChainRunsAppend(chain, rs, f.spans, Span(f.first, i - 1), s0.count, fixed);
  }

  /** One residue, as written or corrected, against one step of the scan by index. */
  lemma MirrorStep(p: Pass, s0: Scan, chain: string, rs: seq<SSResidue>, i: nat, s: Scan, f: SpanScan, fixed: bool)
    requires i < |rs| && (f.inRun ==> f.first < i)
    requires forall k :: 0 <= k < |f.spans| ==> f.spans[k].first <= f.spans[k].last && f.spans[k].last + 1 < i
    requires Mirrors(s0, chain, rs, i, s, f, fixed)
    ensures var r := rs[i];
            var s' := if fixed then ScanResidueFixed(p, s, chain, if i >= 1 then rs[i - 1] else rs[0], r)
                      else ScanResidue(p, s, chain, r);
            Mirrors(s0, chain, rs, i + 1, s', SpanStep(p, rs, f, i), fixed)
  {
    if f.inRun && !(p.member(rs[i].ss) && !(p.splits && rs[i].ss != rs[f.first].ss)) {
      var endR := if fixed then rs[i - 1] else EndWritten(rs, Span(f.first, i - 1));
      MirrorEnd(s0, chain, rs, i, s, f, fixed, endR);
    }
  }

  /** The inner loop as written, against the scan by index. */
  lemma {:induction false} WrittenMirrors(p: Pass, s0: Scan, chain: string, rs: seq<SSResidue>, n: nat)
    requires n <= |rs| && !s0.inRun
    ensures Mirrors(s0, chain, rs, n, ScanResidues(p, s0, chain, rs[..n]), SpanScanUpTo(p, rs, n), false)
    decreases n
  {
    if n > 0 {
      WrittenMirrors(p, s0, chain, rs, n - 1);
      assert rs[..n][..n - 1] == rs[..n - 1];
      MirrorStep(p, s0, chain, rs, n - 1, ScanResidues(p, s0, chain, rs[..n - 1]), SpanScanUpTo(p, rs, n - 1), false);
    }
  }

  /** The corrected scan of n residues: the scan of the first n - 1, then residue n - 1 after its predecessor. */
  lemma FixedScanLast(p: Pass, s0: Scan, chain: string, rs: seq<SSResidue>, n: nat)
    requires 0 < n <= |rs|
    ensures ScanResiduesFixed(p, s0, chain, rs[..n]) ==
            ScanResidueFixed(p, ScanResiduesFixed(p, s0, chain, rs[..n - 1]), chain, if n >= 2 then rs[n - 2] else rs[0], rs[n - 1])
  {
    var pre := rs[..n];
    assert pre[..n - 1] == rs[..n - 1];
    assert pre[n - 1] == rs[n - 1] && pre[0] == rs[0];
    assert n >= 2 ==> pre[n - 2] == rs[n - 2];
  }

  /** The corrected inner loop, against the scan by index. */
  lemma {:induction false} FixedMirrors(p: Pass, s0: Scan, chain: string, rs: seq<SSResidue>, n: nat)
    requires n <= |rs| && !s0.inRun
    ensures Mirrors(s0, chain, rs, n, ScanResiduesFixed(p, s0, chain, rs[..n]), SpanScanUpTo(p, rs, n), true)
    decreases n
  {
    if n > 0 {
      FixedMirrors(p, s0, chain, rs, n - 1);
      FixedScanLast(p, s0, chain, rs, n);
      MirrorStep(p, s0, chain, rs, n - 1, ScanResiduesFixed(p, s0, chain, rs[..n - 1]), SpanScanUpTo(p, rs, n - 1), true);
    }
  }

  /** The end of a chain: the run still open is closed at the last residue. */
  lemma CloseMirrors(p: Pass, s0: Scan, chain: string, rs: seq<SSResidue>, s: Scan, lastR: Option<SSResidue>, fixed: bool)
    requires Mirrors(s0, chain, rs, |rs|, s, SpanScanUpTo(p, rs, |rs|), fixed)
    ensures var c := CloseRun(s, chain, LastSeen(lastR, rs));
            !c.inRun && c.count == s0.count + |SpansOf(p, rs)| &&
            c.runs == s0.runs + ChainRuns(chain, rs, SpansOf(p, rs), s0.count, fixed)
  {
    var f := SpanScanUpTo(p, rs, |rs|);
    if f.inRun {
      var last := rs[|rs| - 1];
      assert LastSeen(lastR, rs) == Some(last);
      assert EndWritten(rs, Span(f.first, |rs| - 1)) == last;
      MirrorEnd(s0, chain, rs, |rs|, s, f, fixed, last);
    }
  }

  /**
   * A chain as written: one record per maximal run, numbered on from the counter, each
   * from the run's first residue to the residue after its last one, or to its last one
   * when the run reaches the end of the chain.
   */
  lemma WrittenChainRuns(p: Pass, s0: Scan, chain: string, rs: seq<SSResidue>, lastR: Option<SSResidue>)
    requires !s0.inRun
    ensures var c := CloseRun(ScanResidues(p, s0, chain, rs), chain, LastSeen(lastR, rs));
            RunsOfChain(p, rs, SpansOf(p, rs)) &&
            !c.inRun && c.count == s0.count + |SpansOf(p, rs)| &&
            c.runs == s0.runs + ChainRuns(chain, rs, SpansOf(p, rs), s0.count, false)
  {
    WrittenMirrors(p, s0, chain, rs, |rs|);
    assert rs[..|rs|] == rs;
    CloseMirrors(p, s0, chain, rs, ScanResidues(p, s0, chain, rs), lastR, false);
    SpansAreRuns(p, rs);
  }

  /**
   * A chain, corrected: one record per maximal run, numbered on from the counter, each
   * from the run's first residue to its last one.
   */
  lemma FixedChainRuns(p: Pass, s0: Scan, chain: string, rs: seq<SSResidue>, lastR: Option<SSResidue>)
    requires !s0.inRun
    ensures var c := CloseRun(ScanResiduesFixed(p, s0, chain, rs), chain, LastSeen(lastR, rs));
            RunsOfChain(p, rs, SpansOf(p, rs)) &&
            !c.inRun && c.count == s0.count + |SpansOf(p, rs)| &&
            c.runs == s0.runs + ChainRuns(chain, rs, SpansOf(p, rs), s0.count, true)
  {
    FixedMirrors(p, s0, chain, rs, |rs|);
    assert rs[..|rs|] == rs;
    CloseMirrors(p, s0, chain, rs, ScanResiduesFixed(p, s0, chain, rs), lastR, true);
    SpansAreRuns(p, rs);
  }

  /**
   * A helix of residues 1 and 2 followed by a coil residue 3: the pass as written records
   * it as ending at residue 3, the corrected one at residue 2.
   */
  lemma HelixEndMisnamed()
    ensures var rs := [SSResidue("ALA", 1, Helix), SSResidue("GLY", 2, Helix), SSResidue("SER", 3, 0)];
            HelixWalk([SSChain("A", rs)]).scan.runs == [Run(1, "A", "ALA", 1, "SER", 3, Helix)] &&
            CloseRun(ScanResiduesFixed(HelixPass, Scan(false, "", -1, Helix, 0, []), "A", rs), "A", Some(rs[2])).runs ==
            [Run(1, "A", "ALA", 1, "GLY", 2, Helix)]
  {
    var rs := [SSResidue("ALA", 1, Helix), SSResidue("GLY", 2, Helix), SSResidue("SER", 3, 0)];
    var s0 := Scan(false, "", -1, Helix, 0, []);
    assert rs[..2] == rs[..3][..2] && rs[..1] == rs[..2][..1] && rs[..1][..0] == [] && rs[..3] == rs;
    assert [SSChain("A", rs)][..0] == [];
    var s1 := Started(s0, rs[0]);
    assert ScanResidues(HelixPass, s0, "A", rs[..1]) == s1;
    assert ScanResidues(HelixPass, s0, "A", rs[..2]) == s1;
    assert ScanResidues(HelixPass, s0, "A", rs) == s1.(runs := [Ended(s1, "A", rs[2])], inRun := false);
    var w := Walk(s0, None, None);
    assert ScanChains(HelixPass, w, [SSChain("A", rs)]) ==
           Walk(CloseRun(ScanResidues(HelixPass, s0, "A", rs), "A", Some(rs[2])), Some(rs[2]), Some("A"));
    assert ScanResiduesFixed(HelixPass, s0, "A", rs[..1]) == s1;
    assert ScanResiduesFixed(HelixPass, s0, "A", rs[..2]) == s1;
    assert ScanResiduesFixed(HelixPass, s0, "A", rs) == s1.(runs := [Ended(s1, "A", rs[1])], inRun := false);
  }

  // ---------------------------------------------------------------- the chain loop

  /** The number of runs the chains `cs` hold. */
  function RunCount(p: Pass, cs: seq<SSChain>): nat
    decreases |cs|
  {
    if cs == [] then 0 else RunCount(p, cs[..|cs| - 1]) + |SpansOf(p, cs[|cs| - 1].residues)|
  }

  /**
   * The records of the chains `cs` as written, chain after chain, the runs numbered on from
   * count0 across the chains.
   */
  function WalkRuns(p: Pass, cs: seq<SSChain>, count0: nat): seq<Run>
    decreases |cs|
  {
    if cs == [] then []
    else
      var c := cs[|cs| - 1];
      WalkRuns(p, cs[..|cs| - 1], count0) +
      ChainRuns(c.name, c.residues, SpansOf(p, c.residues), count0 + RunCount(p, cs[..|cs| - 1]), false)
  }

  /** The chain loop of a pass ends out of a run, with one count per run of every chain. */
  lemma {:induction false} ScanChainsCount(p: Pass, w: Walk, cs: seq<SSChain>)
    requires !w.scan.inRun
    ensures !ScanChains(p, w, cs).scan.inRun
    ensures ScanChains(p, w, cs).scan.count == w.scan.count + RunCount(p, cs)
    decreases |cs|
  {
    if cs != [] {
      ScanChainsCount(p, w, cs[..|cs| - 1]);
      ChainStep(p, w, cs);
      RunCountLast(p, cs);
    }
  }

  /**
   * The chain loop of a pass: every chain closes its own runs, and the records are those of
   * each chain in turn, numbered on from the counter across chains.
   */
  lemma {:induction false} ScanChainsRuns(p: Pass, w: Walk, cs: seq<SSChain>)
    requires !w.scan.inRun
    ensures ScanChains(p, w, cs).scan.runs == w.scan.runs + WalkRuns(p, cs, w.scan.count)
    decreases |cs|
  {
    if cs != [] {
      var cs' := cs[..|cs| - 1];
      var c := cs[|cs| - 1];
      ScanChainsRuns(p, w, cs');
      ScanChainsCount(p, w, cs');
      var w0 := ScanChains(p, w, cs');
      ChainStep(p, w, cs);
      WalkRunsLast(p, cs, w.scan.count, w0.scan.count);
      var cr := ChainRuns(c.name, c.residues, SpansOf(p, c.residues), w0.scan.count, false);
      RunsGlue(w.scan.runs, WalkRuns(p, cs', w.scan.count), cr, WalkRuns(p, cs, w.scan.count), w0.scan.runs, ScanChains(p, w, cs).scan.runs);
    }
  }

  /** The last chain of the chain loop, from a walk that is not in a run. */
  lemma ChainStep(p: Pass, w: Walk, cs: seq<SSChain>)
    requires cs != [] && !ScanChains(p, w, cs[..|cs| - 1]).scan.inRun
    ensures var w0, w1, c := ScanChains(p, w, cs[..|cs| - 1]), ScanChains(p, w, cs), cs[|cs| - 1];
      !w1.scan.inRun && w1.scan.count == w0.scan.count + |SpansOf(p, c.residues)| &&
      w1.scan.runs == w0.scan.runs + ChainRuns(c.name, c.residues, SpansOf(p, c.residues), w0.scan.count, false)
  {
    var w0, c := ScanChains(p, w, cs[..|cs| - 1]), cs[|cs| - 1];
    ScanChainsLast(p, w, cs);
    WrittenChainRuns(p, w0.scan, c.name, c.residues, w0.lastR);
  }

  /** The chain loop, its records and its run count, unfolded at the last chain. */
  lemma ScanChainsLast(p: Pass, w: Walk, cs: seq<SSChain>)
    requires cs != []
    ensures var w0, c := ScanChains(p, w, cs[..|cs| - 1]), cs[|cs| - 1];
      ScanChains(p, w, cs).scan == CloseRun(ScanResidues(p, w0.scan, c.name, c.residues), c.name, LastSeen(w0.lastR, c.residues))
  {
  }

  lemma WalkRunsLast(p: Pass, cs: seq<SSChain>, n: nat, k: nat)
    requires cs != [] && k == n + RunCount(p, cs[..|cs| - 1])
    ensures var cs', c := cs[..|cs| - 1], cs[|cs| - 1];
      WalkRuns(p, cs, n) == WalkRuns(p, cs', n) + ChainRuns(c.name, c.residues, SpansOf(p, c.residues), k, false)
  {
  }

  lemma RunCountLast(p: Pass, cs: seq<SSChain>)
    requires cs != []
    ensures RunCount(p, cs) == RunCount(p, cs[..|cs| - 1]) + |SpansOf(p, cs[|cs| - 1].residues)|
  {
  }

  lemma RunsGlue(base: seq<Run>, prior: seq<Run>, cr: seq<Run>, whole: seq<Run>, runs0: seq<Run>, runs1: seq<Run>)
    requires runs0 == base + prior && runs1 == runs0 + cr && whole == prior + cr
    ensures runs1 == base + whole
  {
  }

  /**
   * writeSecondaryStructure's two passes over a file's chains: the HELIX records, then the
   * SHEET records, each the runs of every chain in turn, numbered from 1 across chains.
   */
  lemma PassesRuns(cs: seq<SSChain>)
    ensures HelixWalk(cs).scan.runs == WalkRuns(HelixPass, cs, 0)
    ensures SheetWalk(cs).scan.runs == WalkRuns(SheetPass, cs, 0)
  {
    var w := Walk(Scan(false, "", -1, Helix, 0, []), None, None);
    ScanChainsRuns(HelixPass, w, cs);
    ScanChainsCount(HelixPass, w, cs);
    var h := HelixWalk(cs);
    var w2 := Walk(h.scan.(inRun := false, count := 0, runs := []), h.lastR, h.lastC);
    ScanChainsRuns(SheetPass, w2, cs);
    ScanChainsCount(SheetPass, w2, cs);
  }
}
