/**
 * PDBReader.writeSecondaryStructure: HELIX and SHEET records for the residues of the
 * selection's structure. Two passes walk the chains and their residues in order; each
 * keeps an "in a run" flag, the run's first residue and type, and a run counter, and
 * writes a record whenever a run ends. The helix pass also starts a new run when the
 * helix kind changes.
 */
module PdbWriteSS {
  import opened Wrappers
  import opened Text
  import opened Molecule

  /** What the writer reads of a residue: its name, number and secondary structure type. */
  datatype SSResidue = SSResidue(name: string, id: int, ss: int)

  /** A chain: its name and its residues, in the order the dictionary yields them. */
  datatype SSChain = SSChain(name: string, residues: seq<SSResidue>)

  /** The number of structures of the selection, and the chains of the first one's current model. */
  datatype SSInput = SSInput(structuresCount: nat, chains: seq<SSChain>)

  /** A record to write: the run number, the chain, the first and last residue, the type. */
  datatype Run = Run(serial: nat, chain: string, startName: string, startId: int,
                     endName: string, endId: int, ssType: int)

  /** The locals of one pass: in a run or not, the run's first residue and type, the counter. */
  datatype Scan = Scan(inRun: bool, startName: string, startId: int, curType: int, count: nat, runs: seq<Run>)

  /**
   * What tells the two passes apart: the residues a run is made of, and whether a change
   * of type within them ends the run and starts another one.
   */
  datatype Pass = Pass(member: int -> bool, splits: bool)

  /** The helix pass: the nine helix kinds; a change of kind starts a new helix. */
  const HelixPass: Pass := Pass(IsHelixType, true)

  /** The sheet pass: strands. */
  const SheetPass: Pass := Pass(t => t == Strand, false)

  /** The record of the run in progress, ended at residue `r`. */
  function Ended(s: Scan, chain: string, r: SSResidue): (run: Run)
    ensures run.serial == s.count && run.startId == s.startId && run.endId == r.id && run.ssType == s.curType
  {
    Run(s.count, chain, s.startName, s.startId, r.name, r.id, s.curType)
  }

  /** A run starts at residue `r`. */
  function Started(s: Scan, r: SSResidue): Scan {
    s.(startName := r.name, startId := r.id, curType := r.ss, count := s.count + 1, inRun := true)
  }

  /**
   * One residue of the inner loop. A run ends at the residue that interrupts it: the
   * record names that residue, not the last one of the run.
   */
  function ScanResidue(p: Pass, s: Scan, chain: string, r: SSResidue): Scan {
    if p.member(r.ss) then
      if !s.inRun then Started(s, r)
      else if p.splits && r.ss != s.curType then Started(s.(runs := s.runs + [Ended(s, chain, r)]), r)
      else s
    else if s.inRun then s.(runs := s.runs + [Ended(s, chain, r)], inRun := false)
    else s
  }

  /** The inner loop over the residues of a chain. */
  function ScanResidues(p: Pass, s: Scan, chain: string, rs: seq<SSResidue>): Scan
    decreases |rs|
  {
    if rs == [] then s else ScanResidue(p, ScanResidues(p, s, chain, rs[..|rs| - 1]), chain, rs[|rs| - 1])
  }

  /** A run still open at the end of a chain ends at the last residue seen. */
  function CloseRun(s: Scan, chain: string, lastR: Option<SSResidue>): Scan {
    if s.inRun && lastR.Some? then s.(runs := s.runs + [Ended(s, chain, lastR.value)], inRun := false)
    else s
  }

  /** The last residue seen (lastR) after the residues `rs`. */
  function LastSeen(lastR: Option<SSResidue>, rs: seq<SSResidue>): Option<SSResidue> {
    if rs == [] then lastR else Some(rs[|rs| - 1])
  }

  /** The locals shared by both passes: the scan, lastR and the name of lastC. */
  datatype Walk = Walk(scan: Scan, lastR: Option<SSResidue>, lastC: Option<string>)

  /** The outer loop over the chains. */
  function ScanChains(p: Pass, w: Walk, cs: seq<SSChain>): Walk
    decreases |cs|
  {
    if cs == [] then w
    else
      var w0 := ScanChains(p, w, cs[..|cs| - 1]);
      var c := cs[|cs| - 1];
      var lastR := LastSeen(w0.lastR, c.residues);
      Walk(CloseRun(ScanResidues(p, w0.scan, c.name, c.residues), c.name, lastR), lastR, Some(c.name))
  }

  /** A pass: the chains, then a run still open after the last chain (which never happens). */
  function PassOf(p: Pass, w: Walk, cs: seq<SSChain>): Walk {
    var w1 := ScanChains(p, w, cs);
    if w1.scan.inRun && w1.lastC.Some? && w1.lastR.Some? then
      w1.(scan := w1.scan.(runs := w1.scan.runs + [Ended(w1.scan, w1.lastC.value, w1.lastR.value)], inRun := false))
    else w1
  }

  /** The two passes; the sheet pass starts from the locals the helix pass left. */
  function HelixWalk(cs: seq<SSChain>): Walk {
    PassOf(HelixPass, Walk(Scan(false, "", -1, Helix, 0, []), None, None), cs)
  }

  function SheetWalk(cs: seq<SSChain>): Walk {
    var h := HelixWalk(cs);
    PassOf(SheetPass, Walk(h.scan.(inRun := false, count := 0, runs := []), h.lastR, h.lastC), cs)
  }

  /** A composite format integer field {i,w}. */
  function Field(n: int, width: nat): string {
    PadLeft(IntToString(n), width)
  }

  /**
   * "HELIX  {0,3} {1,3} {2,2}{3,2} {4,4}  {5,2} {6,1} {7,4} {8,2}{9,36}"; the length is
   * end - start. When the fields have the widths the format gives them, the chain, the
   * residue numbers and the helix class lie in the columns the reader takes them from.
   */
  function HelixText(h: Run): (line: string)
    ensures |Field(h.serial, 3)| == 3 && |PadLeft(h.startName, 2)| == 3 && |PadLeft(h.chain, 2)| == 2 &&
            |Field(h.startId, 4)| == 4 && |PadLeft(h.endName, 2)| == 3 && |PadLeft(h.chain, 1)| == 1 &&
            |Field(h.endId, 4)| == 4 && |Field(h.ssType, 2)| == 2 ==>
            |line| >= 40 && line[18..20] == PadLeft(h.chain, 2) && line[20] == ' ' &&
            line[21..25] == Field(h.startId, 4) && line[33..37] == Field(h.endId, 4) && line[38..40] == Field(h.ssType, 2)
  {
    HelixLayout(Field(h.serial, 3), PadLeft(h.startName, 2), PadLeft(h.chain, 2), Field(h.startId, 4),
                PadLeft(h.endName, 2), PadLeft(h.chain, 1), Field(h.endId, 4), Field(h.ssType, 2),
                Field(h.endId - h.startId, 36));
    HelixFormat(Field(h.serial, 3), PadLeft(h.startName, 2), PadLeft(h.chain, 2), Field(h.startId, 4),
                PadLeft(h.endName, 2), PadLeft(h.chain, 1), Field(h.endId, 4), Field(h.ssType, 2),
                Field(h.endId - h.startId, 36))
  }

  /** The HELIX format string over the texts of its fields. */
  function HelixFormat(ser: string, sn: string, ch2: string, sid: string, en: string, ch1: string,
                       eid: string, ty: string, len: string): string {
    "HELIX  " + ser + " " + ser + " " + sn + ch2 + " " + sid + "  " + en + " " + ch1 + " " + eid + " " + ty + len
  }

  /**
   * "SHEET  {0,3} {1,3} 0 {2,3} {3,1}{4,4}  {5,3} {6,1}{7,4} ". When the fields have the
   * widths the format gives them, the chain lies in column 22 and the residue numbers in
   * columns 23-26 and 34-37.
   */
  function SheetText(s: Run): (line: string)
    ensures |Field(s.serial, 3)| == 3 && |PadLeft(s.startName, 3)| == 3 && |PadLeft(s.chain, 1)| == 1 &&
            |Field(s.startId, 4)| == 4 && |PadLeft(s.endName, 3)| == 3 && |Field(s.endId, 4)| == 4 ==>
            |line| == 38 && line[21..22] == PadLeft(s.chain, 1) && line[22..26] == Field(s.startId, 4) &&
            line[33..37] == Field(s.endId, 4)
  {
    SheetLayout(Field(s.serial, 3), PadLeft(s.startName, 3), PadLeft(s.chain, 1), Field(s.startId, 4),
                PadLeft(s.endName, 3), Field(s.endId, 4));
    SheetFormat(Field(s.serial, 3), PadLeft(s.startName, 3), PadLeft(s.chain, 1), Field(s.startId, 4),
                PadLeft(s.endName, 3), Field(s.endId, 4))
  }

  /** The SHEET format string over the texts of its fields. */
  function SheetFormat(ser: string, sn: string, ch: string, sid: string, en: string, eid: string): string {
    "SHEET  " + ser + " " + ser + " 0 " + sn + " " + ch + sid + "  " + en + " " + ch + eid + " "
  }

  /** The layout of the HELIX format string, over any field texts of the widths it needs. */
  lemma HelixLayout(ser: string, sn: string, ch2: string, sid: string, en: string, ch1: string,
                    eid: string, ty: string, len: string)
    ensures |ser| == 3 && |sn| == 3 && |ch2| == 2 && |sid| == 4 && |en| == 3 && |ch1| == 1 && |eid| == 4 && |ty| == 2 ==>
            var line := HelixFormat(ser, sn, ch2, sid, en, ch1, eid, ty, len);
            |line| >= 40 && line[18..20] == ch2 && line[20] == ' ' && line[21..25] == sid &&
            line[33..37] == eid && line[38..40] == ty
  {
    if |ser| == 3 && |sn| == 3 && |ch2| == 2 && |sid| == 4 && |en| == 3 && |ch1| == 1 && |eid| == 4 && |ty| == 2 {
      var l1 := "HELIX  " + ser;
      var l2 := l1 + " ";
      var l3 := l2 + ser;
      var l4 := l3 + " ";
      var l5 := l4 + sn;
      var l6 := l5 + ch2;
      var l7 := l6 + " ";
      var l8 := l7 + sid;
      var l9 := l8 + "  ";
      var l10 := l9 + en;
      var l11 := l10 + " ";
      var l12 := l11 + ch1;
      var l13 := l12 + " ";
      var l14 := l13 + eid;
      var l15 := l14 + " ";
      var l16 := l15 + ty;
      var line := l16 + len;
      assert line[..|line|] == line;
      ExtendPrefix(l16, len, line);
      AtHead(l15, ty, line);
      ExtendPrefix(l15, ty, line);
      ExtendPrefix(l14, " ", line);
      AtHead(l13, eid, line);
      ExtendPrefix(l13, eid, line);
      ExtendPrefix(l12, " ", line);
      ExtendPrefix(l11, ch1, line);
      ExtendPrefix(l10, " ", line);
      ExtendPrefix(l9, en, line);
      ExtendPrefix(l8, "  ", line);
      AtHead(l7, sid, line);
      ExtendPrefix(l7, sid, line);
      AtHead(l6, " ", line);
      ExtendPrefix(l6, " ", line);
      AtHead(l5, ch2, line);
    }
  }

  /** The layout of the SHEET format string, over any field texts of the widths it needs. */
  lemma SheetLayout(ser: string, sn: string, ch: string, sid: string, en: string, eid: string)
    ensures |ser| == 3 && |sn| == 3 && |ch| == 1 && |sid| == 4 && |en| == 3 && |eid| == 4 ==>
            var line := SheetFormat(ser, sn, ch, sid, en, eid);
            |line| == 38 && line[21..22] == ch && line[22..26] == sid && line[33..37] == eid
  {
    if |ser| == 3 && |sn| == 3 && |ch| == 1 && |sid| == 4 && |en| == 3 && |eid| == 4 {
      var l1 := "SHEET  " + ser;
      var l2 := l1 + " ";
      var l3 := l2 + ser;
      var l4 := l3 + " 0 ";
      var l5 := l4 + sn;
      var l6 := l5 + " ";
      var l7 := l6 + ch;
      var l8 := l7 + sid;
      var l9 := l8 + "  ";
      var l10 := l9 + en;
      var l11 := l10 + " ";
      var l12 := l11 + ch;
      var l13 := l12 + eid;
      var line := l13 + " ";
      assert line[..|line|] == line;
      ExtendPrefix(l13, " ", line);
      AtHead(l12, eid, line);
      ExtendPrefix(l12, eid, line);
      ExtendPrefix(l11, ch, line);
      ExtendPrefix(l10, " ", line);
      ExtendPrefix(l9, en, line);
      ExtendPrefix(l8, "  ", line);
      AtHead(l7, sid, line);
      ExtendPrefix(l7, sid, line);
      AtHead(l6, ch, line);
    }
  }

  /** Lines appended to the StringBuilder, each ended by "\n". */
  function Lines(ls: seq<string>): string
    decreases |ls|
  {
    if ls == [] then "" else Lines(ls[..|ls| - 1]) + ls[|ls| - 1] + "\n"
  }

  lemma LinesAppend(ls: seq<string>, l: string)
    ensures Lines(ls + [l]) == Lines(ls) + l + "\n"
  {
    assert (ls + [l])[..|ls|] == ls;
  }

  function HelixLines(runs: seq<Run>): (r: seq<string>)
    ensures |r| == |runs| && forall i :: 0 <= i < |runs| ==> r[i] == HelixText(runs[i])
  {
    seq(|runs|, i requires 0 <= i < |runs| => HelixText(runs[i]))
  }

  function SheetLines(runs: seq<Run>): (r: seq<string>)
    ensures |r| == |runs| && forall i :: 0 <= i < |runs| ==> r[i] == SheetText(runs[i])
  {
    seq(|runs|, i requires 0 <= i < |runs| => SheetText(runs[i]))
  }

  /** What writeSecondaryStructure appends: nothing unless the selection has one structure. */
  function SSText(ss: SSInput): string {
    if ss.structuresCount != 1 then ""
    else Lines(HelixLines(HelixWalk(ss.chains).scan.runs)) + Lines(SheetLines(SheetWalk(ss.chains).scan.runs))
  }

  /** One pass as the source runs it: a loop over the chains around a loop over their residues. */
  method RunPass(p: Pass, w: Walk, cs: seq<SSChain>) returns (r: Walk)
    ensures r == PassOf(p, w, cs)
  {
    var s := w.scan;
    var lastR := w.lastR;
    var lastC := w.lastC;
    for ci := 0 to |cs|
      invariant Walk(s, lastR, lastC) == ScanChains(p, w, cs[..ci])
    {
      var c := cs[ci];
      assert cs[..ci + 1][..ci] == cs[..ci];
      ghost var s0 := s;
      ghost var lastR0 := lastR;
      for ri := 0 to |c.residues|
        invariant s == ScanResidues(p, s0, c.name, c.residues[..ri])
        invariant lastR == LastSeen(lastR0, c.residues[..ri])
      {
        var res := c.residues[ri];
        assert c.residues[..ri + 1][..ri] == c.residues[..ri];
        if p.member(res.ss) {
          if !s.inRun {
            s := Started(s, res);
          } else if p.splits && res.ss != s.curType {
            s := Started(s.(runs := s.runs + [Ended(s, c.name, res)]), res);
          }
        } else if s.inRun {
          s := s.(runs := s.runs + [Ended(s, c.name, res)], inRun := false);
        }
        lastR := Some(res);
      }
      assert c.residues[..|c.residues|] == c.residues;
      if s.inRun && lastR.Some? {
        s := s.(runs := s.runs + [Ended(s, c.name, lastR.value)], inRun := false);
      }
      lastC := Some(c.name);
    }
    assert cs[..|cs|] == cs;
    if s.inRun && lastC.Some? && lastR.Some? {
      s := s.(runs := s.runs + [Ended(s, lastC.value, lastR.value)], inRun := false);
    }
    r := Walk(s, lastR, lastC);
  }

  /** writeSecondaryStructure: the helix pass, then the sheet pass, each record on its own line. */
  method WriteSecondaryStructure(ss: SSInput) returns (text: string)
    ensures text == SSText(ss)
  {
    text := "";
    if ss.structuresCount == 1 {
      var h := RunPass(HelixPass, Walk(Scan(false, "", -1, Helix, 0, []), None, None), ss.chains);
      var sh := RunPass(SheetPass, Walk(h.scan.(inRun := false, count := 0, runs := []), h.lastR, h.lastC), ss.chains);
      text := Lines(HelixLines(h.scan.runs)) + Lines(SheetLines(sh.scan.runs));
    }
  }
}
