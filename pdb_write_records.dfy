/**
 * The records Write's atom loop produces, described without the loop: the atom records
 * are the selection's atoms that are written, in order, up to the one that stops the
 * loop; a TER record stands exactly between two atom records of different chain letters;
 * atomSerial counts every record; and only the last record can be the one that stops the
 * loop, by making the count pass 99999 or by a residue number of 9999 or more.
 */
module PdbWriteRecords {
  import opened Wrappers
  import opened Molecule
  import opened PdbWrite

  /** The atoms of the atom records, with the positions written for them, in order. */
  function AtomsOf(recs: seq<Record>): seq<(Placed, Vec3)>
    decreases |recs|
  {
    if recs == [] then []
    else
      var r := recs[|recs| - 1];
      AtomsOf(recs[..|recs| - 1]) + (if r.AtomRec? then [(r.p, r.pos)] else [])
  }

  /** Whether the loop skips atom i: a heteroatom when heteroatoms are not written. */
  predicate Skipped(atoms: seq<Placed>, i: nat, opts: WriteOptions)
    requires i < |atoms|
  {
    atoms[i].atom.isHET && !opts.writeHET
  }

  /** The first n atoms that are written, each with its position. */
  function Kept(atoms: seq<Placed>, pos: seq<Vec3>, n: nat, opts: WriteOptions): seq<(Placed, Vec3)>
    requires n <= |atoms| == |pos|
    decreases n
  {
    if n == 0 then []
    else Kept(atoms, pos, n - 1, opts) + (if Skipped(atoms, n - 1, opts) then [] else [(atoms[n - 1], pos[n - 1])])
  }

  /**
   * Record j in its place: an atom record carries the first letter of its chain and has
   * the same letter as an atom record just before it; a TER record stands between two
   * atom records of different letters, names the chain before it and carries the number
   * of the atom after it.
   */
  predicate RecOk(recs: seq<Record>, j: nat)
    requires j < |recs|
  {
    match recs[j]
    case AtomRec(p, c, _) =>
      |p.chain| > 0 && c == p.chain[0] && (j > 0 && recs[j - 1].AtomRec? ==> recs[j - 1].chainId == c)
    case TerRec(number, _, prevChain, _) =>
      0 < j < |recs| - 1 && recs[j - 1].AtomRec? && recs[j + 1].AtomRec? &&
      recs[j - 1].chainId != recs[j + 1].chainId && prevChain == [recs[j - 1].chainId] &&
      number == recs[j + 1].p.atom.number
  }

  ghost predicate AllRecOk(recs: seq<Record>) {
    forall j :: 0 <= j < |recs| ==> RecOk(recs, j)
  }

  /** Record j makes the loop break out: it is an atom record, and the count or its residue number is too large. */
  predicate StopAt(recs: seq<Record>, j: nat)
    requires j < |recs|
  {
    recs[j].AtomRec? && (j + 1 > 99999 || recs[j].p.resNum >= 9999)
  }

  /** The loop broke out at the last record and at no earlier one. */
  ghost predicate StopsLast(w: Progress) {
    (w.stopped <==> w.recs != [] && StopAt(w.recs, |w.recs| - 1)) &&
    forall j :: 0 <= j < |w.recs| - 1 ==> !StopAt(w.recs, j)
  }

  /** prevChain is the letter of the last record, which is an atom record. */
  predicate TailOk(w: Progress) {
    (w.recs == [] <==> w.prevChain.None?) &&
    (w.recs != [] ==> w.recs[|w.recs| - 1].AtomRec? && w.prevChain == Some([w.recs[|w.recs| - 1].chainId]))
  }

  /** The locals of the atom loop, as the propositions above describe them. */
  ghost predicate Shaped(w: Progress) {
    w.serial == |w.recs| && TailOk(w) && AllRecOk(w.recs) && StopsLast(w)
  }

  lemma AtomsOfAppend(recs: seq<Record>, r: Record)
    ensures AtomsOf(recs + [r]) == AtomsOf(recs) + (if r.AtomRec? then [(r.p, r.pos)] else [])
  {
    assert (recs + [r])[..|recs|] == recs;
  }

  lemma RecOkExtend(recs: seq<Record>, more: seq<Record>, j: nat)
    requires j < |recs| && RecOk(recs, j)
    ensures RecOk(recs + more, j)
  {
    var all := recs + more;
    assert all[j] == recs[j];
    if j > 0 {
      assert all[j - 1] == recs[j - 1];
    }
    if j + 1 < |recs| {
      assert all[j + 1] == recs[j + 1];
    }
  }

  lemma AllRecOkExtend(recs: seq<Record>, more: seq<Record>)
    requires AllRecOk(recs)
    ensures forall j :: 0 <= j < |recs| ==> RecOk(recs + more, j)
  {
    forall j | 0 <= j < |recs|
      ensures RecOk(recs + more, j)
    {
      RecOkExtend(recs, more, j);
    }
  }

  /** No record before the last one stopped the loop, and the last one did not either. */
  lemma NoStopExtend(recs: seq<Record>, more: seq<Record>)
    requires forall j :: 0 <= j < |recs| ==> !StopAt(recs, j)
    ensures forall j :: 0 <= j < |recs| ==> !StopAt(recs + more, j)
  {
    forall j | 0 <= j < |recs|
      ensures !StopAt(recs + more, j)
    {
      assert (recs + more)[j] == recs[j];
      assert !StopAt(recs, j);
    }
  }

  /** An atom record appended to a shaped, running loop within the same chain. */
  lemma AppendAtom(w: Progress, a: Record)
    requires Shaped(w) && !w.stopped && a.AtomRec? && |a.p.chain| > 0 && a.chainId == a.p.chain[0]
    requires w.prevChain.Some? ==> w.prevChain == Some([a.chainId])
    ensures var recs := w.recs + [a];
            var serial := w.serial + 1;
            Shaped(Progress(recs, Some([a.chainId]), serial, serial > 99999 || a.p.resNum >= 9999))
  {
    var recs := w.recs + [a];
    AllRecOkExtend(w.recs, [a]);
    if w.recs != [] {
      assert recs[|recs| - 2] == w.recs[|w.recs| - 1];
    }
    assert RecOk(recs, |recs| - 1);
    NoStopExtend(w.recs, [a]);
  }

  /** A TER record and an atom record appended to a shaped, running loop at a change of chain. */
  lemma AppendTerAtom(w: Progress, ter: Record, a: Record)
    requires Shaped(w) && !w.stopped && a.AtomRec? && |a.p.chain| > 0 && a.chainId == a.p.chain[0]
    requires w.prevChain.Some? && w.prevChain != Some([a.chainId])
    requires ter.TerRec? && ter.prevChain == w.prevChain.value && ter.number == a.p.atom.number
    ensures var recs := w.recs + [ter, a];
            var serial := w.serial + 2;
            Shaped(Progress(recs, Some([a.chainId]), serial, serial > 99999 || a.p.resNum >= 9999))
  {
    var recs := w.recs + [ter, a];
    AllRecOkExtend(w.recs, [ter, a]);
    assert recs[|recs| - 3] == w.recs[|w.recs| - 1];
    assert RecOk(recs, |recs| - 2);
    assert RecOk(recs, |recs| - 1);
    NoStopExtend(w.recs, [ter, a]);
    assert !StopAt(recs, |recs| - 2);
  }

  /** What the records list after an atom the loop writes. */
  lemma StepKept(w: Progress, atoms: seq<Placed>, pos: seq<Vec3>, i: nat, opts: WriteOptions, fmt: Formats)
    requires i < |atoms| == |pos| && (w.prevChain.Some? ==> i > 0)
    requires AtomStep(w, atoms, pos, i, opts, fmt).Some? && !w.stopped && !Skipped(atoms, i, opts)
    ensures AtomsOf(AtomStep(w, atoms, pos, i, opts, fmt).value.recs) == AtomsOf(w.recs) + [(atoms[i], pos[i])]
  {
    var p := atoms[i];
    var a := AtomRec(p, p.chain[0], pos[i]);
    if w.prevChain.Some? && w.prevChain != Some([p.chain[0]]) {
      var ter := TerRec(p.atom.number, atoms[i - 1].resName, w.prevChain.value, atoms[i - 1].resNum);
      AtomsOfAppend(w.recs, ter);
      AtomsOfAppend(w.recs + [ter], a);
      assert w.recs + [ter] + [a] == w.recs + [ter, a];
    } else {
      AtomsOfAppend(w.recs, a);
    }
  }

  /** One iteration of the atom loop keeps the shape. */
  lemma StepShaped(w: Progress, atoms: seq<Placed>, pos: seq<Vec3>, i: nat, opts: WriteOptions, fmt: Formats)
    requires i < |atoms| == |pos| && (w.prevChain.Some? ==> i > 0) && Shaped(w)
    ensures var r := AtomStep(w, atoms, pos, i, opts, fmt);
            r.Some? ==> Shaped(r.value)
  {
    var p := atoms[i];
    if !w.stopped && !Skipped(atoms, i, opts) && p.chain != "" {
      var a := AtomRec(p, p.chain[0], pos[i]);
      if w.prevChain.Some? && w.prevChain != Some([p.chain[0]]) {
        var ter := TerRec(p.atom.number, atoms[i - 1].resName, w.prevChain.value, atoms[i - 1].resNum);
        AppendTerAtom(w, ter, a);
        assert w.recs + [ter] + [a] == w.recs + [ter, a];
      } else {
        AppendAtom(w, a);
      }
    }
  }

  /** The atom loop's records as a whole, with the atoms written up to where the loop stopped. */
  ghost predicate KeptUpTo(atoms: seq<Placed>, pos: seq<Vec3>, n: nat, opts: WriteOptions, w: Progress)
    requires n <= |atoms| == |pos|
  {
    exists m :: 0 <= m <= n && AtomsOf(w.recs) == Kept(atoms, pos, m, opts) && (!w.stopped ==> m == n)
  }

  /**
   * After the first n atoms the loop's records are shaped, and their atom records are the
   * written atoms among the first n, or, once the loop has broken out, among the first m
   * for some m <= n.
   */
  lemma {:induction false} AtomRecordsShaped(atoms: seq<Placed>, pos: seq<Vec3>, n: nat, opts: WriteOptions, fmt: Formats)
    requires n <= |atoms| == |pos|
    ensures var r := AtomRecords(atoms, pos, n, opts, fmt);
            r.Some? ==> Shaped(r.value) && KeptUpTo(atoms, pos, n, opts, r.value)
    decreases n
  {
    var r := AtomRecords(atoms, pos, n, opts, fmt);
    if n == 0 {
      assert KeptUpTo(atoms, pos, n, opts, r.value) by {
        assert AtomsOf(r.value.recs) == Kept(atoms, pos, 0, opts);
      }
    } else if r.Some? {
      AtomRecordsShaped(atoms, pos, n - 1, opts, fmt);
      var w := AtomRecords(atoms, pos, n - 1, opts, fmt).value;
      StepShaped(w, atoms, pos, n - 1, opts, fmt);
      var m :| 0 <= m <= n - 1 && AtomsOf(w.recs) == Kept(atoms, pos, m, opts) && (!w.stopped ==> m == n - 1);
      StepKeptUpTo(w, atoms, pos, n - 1, opts, fmt, m);
    }
  }

  /** One iteration of the atom loop extends the written atoms by the atom it writes, if any. */
  lemma StepKeptUpTo(w: Progress, atoms: seq<Placed>, pos: seq<Vec3>, i: nat, opts: WriteOptions, fmt: Formats, m: nat)
    requires i < |atoms| == |pos| && (w.prevChain.Some? ==> i > 0)
    requires m <= i && AtomsOf(w.recs) == Kept(atoms, pos, m, opts) && (!w.stopped ==> m == i)
    requires AtomStep(w, atoms, pos, i, opts, fmt).Some?
    ensures KeptUpTo(atoms, pos, i + 1, opts, AtomStep(w, atoms, pos, i, opts, fmt).value)
  {
    var r := AtomStep(w, atoms, pos, i, opts, fmt).value;
    if w.stopped {
      assert r == w;
    } else if Skipped(atoms, i, opts) {
      assert r == w;
      assert Kept(atoms, pos, i + 1, opts) == Kept(atoms, pos, i, opts);
    } else {
      StepKept(w, atoms, pos, i, opts, fmt);
      assert AtomsOf(r.recs) == Kept(atoms, pos, i + 1, opts);
    }
  }

  /**
   * The records Write emits for a selection: TER records exactly between atom records of
   * different chain letters, every atom that is written in order up to the one that stops
   * the loop, and that one last.
   */
  lemma WrittenRecords(atoms: seq<Placed>, pos: seq<Vec3>, opts: WriteOptions, fmt: Formats)
    requires |atoms| == |pos|
    ensures var r := AtomRecords(atoms, pos, |atoms|, opts, fmt);
            r.Some? ==>
              AllRecOk(r.value.recs) && StopsLast(r.value) && r.value.serial == |r.value.recs| &&
              (!r.value.stopped ==> AtomsOf(r.value.recs) == Kept(atoms, pos, |atoms|, opts)) &&
              (exists m :: 0 <= m <= |atoms| && AtomsOf(r.value.recs) == Kept(atoms, pos, m, opts))
  {
    AtomRecordsShaped(atoms, pos, |atoms|, opts, fmt);
  }

  /** Write returns the empty text when overridedPos does not have one position per atom. */
  lemma WriteMismatch(sel: Selection, overridedPos: Option<seq<Vec3>>, opts: WriteOptions, fmt: Formats)
    requires RowsOk(sel) && overridedPos.Some? && |overridedPos.value| != |sel.atoms|
    ensures WriteText(sel, overridedPos, opts, fmt) == Some("")
  {
  }

  /** `s` ends with `suffix`. */
  predicate EndsWith(s: string, suffix: string) {
    |suffix| <= |s| && s[|s| - |suffix|..] == suffix
  }

  /**
   * Write(structure) fails exactly when one of its models does; otherwise its text starts
   * with the first model's text and ends with "END" after all of them.
   */
  lemma {:induction false} JoinModelsText(texts: seq<Option<string>>)
    ensures JoinModels(texts).None? <==> exists i :: 0 <= i < |texts| && texts[i].None?
    ensures var r := JoinModels(texts);
            r.Some? ==> EndsWith(r.value, "END") &&
                        (texts != [] ==> |texts[0].value| <= |r.value| && r.value[..|texts[0].value|] == texts[0].value)
    decreases |texts|
  {
    if texts != [] {
      JoinModelsText(texts[1..]);
      if texts[0].Some? && JoinModels(texts[1..]).None? {
        var i :| 0 <= i < |texts[1..]| && texts[1..][i].None?;
        assert texts[i + 1].None?;
      } else if texts[0].Some? {
        forall i | 0 <= i < |texts|
          ensures texts[i].Some?
        {
          if i > 0 {
            assert texts[i] == texts[1..][i - 1];
          }
        }
      }
    }
  }

  /** Write(structure) fails exactly when one of its models does, and otherwise ends with "END". */
  lemma WriteModelsText(models: seq<Selection>, fmt: Formats)
    requires forall i :: 0 <= i < |models| ==> RowsOk(models[i])
    ensures WriteModels(models, fmt).None? <==> exists i :: 0 <= i < |models| && ModelText(models[i], fmt).None?
    ensures WriteModels(models, fmt).Some? ==> EndsWith(WriteModels(models, fmt).value, "END")
  {
    JoinModelsText(ModelTexts(models, fmt));
  }
}
