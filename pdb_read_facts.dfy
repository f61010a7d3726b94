/**
 * What ReadData promises about the structure it builds, proved about the functions of
 * PdbRead: which atom records are kept, renamed or dropped; how kept atoms are grouped
 * into residues, chains and models; how trajectory frames are filled; and where a parse
 * error points.
 */
module PdbReadFacts {
  import opened Wrappers
  import opened Text
  import opened Molecule
  import opened PdbFields
  import opened PdbRead

  // ---------------------------------------------------------------- one atom record

  /** The atom continues the pending residue: same chain, same number, no insertion code. */
  predicate SameResidue(st: State, f: AtomFields) {
    st.atomCounter > 0 && st.lastChain == Some(f.chain) && f.resNum == st.lastResidueId && !f.hasInsertCode
  }

  /** A later alternate location of an atom name the residue already has. */
  predicate LaterAltern(st: State, f: AtomFields) {
    f.name in st.residueAtoms && f.altern != "" && Some(f.altern) != AlternFirst(st, f.altern)
  }

  /**
   * The atom is dropped: within the pending residue, its residue name differs, or its
   * name is taken and its alternate location is not the first one of the file.
   */
  predicate Ignored(st: State, f: AtomFields) {
    SameResidue(st, f) && (st.lastResidue != Some(f.resName) || LaterAltern(st, f))
  }

  /** The atom is kept under a new name: its name is taken and it is not a later alternate. */
  predicate Renames(st: State, f: AtomFields) {
    SameResidue(st, f) && st.lastResidue == Some(f.resName) && f.name in st.residueAtoms && !LaterAltern(st, f)
  }

  /** The name a kept atom gets. */
  function KeptName(st: State, f: AtomFields, env: Env): string {
    if Renames(st, f) then env.findNewAtomName(st.residueAtoms, f.name) else f.name
  }

  /** The atom the record adds, when it is kept. */
  function KeptAtom(st: State, f: AtomFields, isHet: bool, env: Env): Atom {
    Atom(KeptName(st, f, env), f.element, f.position, f.bfactor, f.serial, isHet, IsLigand(f.initResName))
  }

  /** The residues after the pending one is closed. */
  function ClosedResidues(st: State): seq<Residue>
    requires st.atomsList != [] ==> st.lastResidue.Some?
  {
    if st.atomsList != [] then st.residues + [Residue(st.lastResidueId, st.atomsList, st.lastResidue.value)]
    else st.residues
  }

  /** The chains after the pending one, with the residues closed so far, is closed. */
  function ClosedChains(st: State): seq<Chain>
    requires st.atomsList != [] ==> st.lastResidue.Some? && st.lastChain.Some?
    requires st.residues != [] ==> st.lastChain.Some?
  {
    var rs := ClosedResidues(st);
    if rs != [] then st.chains + [Chain(rs, st.lastChain.value)]
    else st.chains
  }

  /** Whether the atom opens a new residue with a gap in the numbering. */
  predicate Gap(st: State, f: AtomFields) {
    st.atomCounter > 0 && st.lastChain == Some(f.chain) && !SameResidue(st, f) &&
    f.resNum - st.lastResidueId > 1 && !f.hasInsertCode
  }

  /**
   * A dropped atom changes none of the groups, the pending residue or the last-seen
   * chain, residue and number; only alternFirst and the messages may change.
   */
  lemma PlaceAtomIgnored(st: State, f: AtomFields, isHet: bool, env: Env)
    requires st.atomsList != [] ==> st.lastResidue.Some? && st.lastChain.Some?
    requires st.residues != [] ==> st.lastChain.Some?
    requires Ignored(st, f)
    ensures var r := PlaceAtom(st, f, isHet, env);
      r == st.(alternFirst := AlternFirst(st, f.altern), diags := r.diags, cptAltern := r.cptAltern)
  {
  }

  /** A kept atom is appended to allAtoms, under its possibly new name. */
  lemma PlaceAtomKept(st: State, f: AtomFields, isHet: bool, env: Env)
    requires st.atomsList != [] ==> st.lastResidue.Some? && st.lastChain.Some?
    requires st.residues != [] ==> st.lastChain.Some?
    requires !Ignored(st, f)
    ensures var r := PlaceAtom(st, f, isHet, env);
      r.allAtoms == st.allAtoms + [KeptAtom(st, f, isHet, env)] && r.atomCounter == st.atomCounter + 1
  {
  }

  /** A kept atom becomes the last-seen one: its chain, residue name and number. */
  lemma PlaceAtomLast(st: State, f: AtomFields, isHet: bool, env: Env)
    requires st.atomsList != [] ==> st.lastResidue.Some? && st.lastChain.Some?
    requires st.residues != [] ==> st.lastChain.Some?
    requires !Ignored(st, f)
    ensures var r := PlaceAtom(st, f, isHet, env);
      r.lastChain == Some(f.chain) && r.lastResidue == Some(f.resName) && r.lastResidueId == f.resNum &&
      r.alternFirst == AlternFirst(st, f.altern)
  {
  }

  /**
   * Within the pending residue a kept atom joins the pending atoms; otherwise the pending
   * residue is closed (and, on a change of chain, the pending chain too) and the atom
   * starts a new residue.
   */
  lemma PlaceAtomGroups(st: State, f: AtomFields, isHet: bool, env: Env)
    requires st.atomsList != [] ==> st.lastResidue.Some? && st.lastChain.Some?
    requires st.residues != [] ==> st.lastChain.Some?
    requires !Ignored(st, f)
    ensures var r := PlaceAtom(st, f, isHet, env);
      var a := KeptAtom(st, f, isHet, env);
      if SameResidue(st, f) || st.atomCounter == 0 then
        r.atomsList == st.atomsList + [a] && r.residues == st.residues && r.chains == st.chains &&
        r.residueAtoms == st.residueAtoms + {a.name}
      else if st.lastChain == Some(f.chain) then
        r.atomsList == [a] && r.residues == ClosedResidues(st) && r.chains == st.chains &&
        r.residueAtoms == {a.name}
      else
        r.atomsList == [a] && r.residues == [] && r.chains == ClosedChains(st) &&
        r.residueAtoms == {a.name}
  {
  }

  /** A gap in the numbering within a chain adds a message and loses nothing. */
  lemma PlaceAtomGap(st: State, f: AtomFields, isHet: bool, env: Env)
    requires st.atomsList != [] ==> st.lastResidue.Some? && st.lastChain.Some?
    requires st.residues != [] ==> st.lastChain.Some?
    requires Gap(st, f)
    ensures var r := PlaceAtom(st, f, isHet, env);
      r.diags == st.diags + [Discontinuous(f.chain, f.resNum)] &&
      r.allAtoms == st.allAtoms + [KeptAtom(st, f, isHet, env)]
  {
  }

  // ---------------------------------------------------------------- grouping

  /** A closed chain: at least one residue, each with at least one atom. */
  predicate ChainDone(c: Chain) {
    c.residues != [] && forall i :: 0 <= i < |c.residues| ==> c.residues[i].atoms != []
  }

  /** A closed model: at least one closed chain, and allAtoms lists the atoms of its chains in order. */
  predicate ModelDone(m: Model) {
    m.chains != [] && (forall i :: 0 <= i < |m.chains| ==> ChainDone(m.chains[i])) &&
    m.allAtoms == AtomsOfChains(m.chains)
  }

  /** The models read so far: closed, and named "0", "1", ... in order. */
  predicate ModelsDone(ms: seq<Model>) {
    forall i :: 0 <= i < |ms| ==> ModelDone(ms[i]) && ms[i].name == IntToString(i)
  }

  /**
   * The groups of the reader: allAtoms holds the atoms of the closed chains, then of the
   * closed residues of the pending chain, then the pending atoms; closed groups are never
   * empty; curModel counts the models.
   */
  predicate Grouped(st: State) {
    st.allAtoms == AtomsOfChains(st.chains) + AtomsOfResidues(st.residues) + st.atomsList &&
    (forall i :: 0 <= i < |st.chains| ==> ChainDone(st.chains[i])) &&
    (forall i :: 0 <= i < |st.residues| ==> st.residues[i].atoms != []) &&
    ModelsDone(st.models) && st.curModel == |st.models|
  }

  lemma InitGrouped()
    ensures Grouped(Init)
  {
  }

  /** Closing the pending residue keeps the groups. */
  lemma FlushResidueGrouped(st: State)
    requires st.atomsList != [] ==> st.lastResidue.Some? && st.lastChain.Some?
    requires Grouped(st)
    ensures Grouped(FlushResidue(st)) && FlushResidue(st).residues == ClosedResidues(st)
  {
    if st.atomsList != [] {
      AtomsOfResiduesAppend(st.residues, Residue(st.lastResidueId, st.atomsList, st.lastResidue.value));
    }
  }

  /** Closing the pending chain keeps the groups. */
  lemma FlushChainGrouped(st: State)
    requires st.residues != [] ==> st.lastChain.Some?
    requires st.atomsList == [] && Grouped(st)
    ensures Grouped(FlushChain(st))
  {
    if st.residues != [] {
      AtomsOfChainsAppend(st.chains, Chain(st.residues, st.lastChain.value));
      var cs := FlushChain(st).chains;
      assert cs[|cs| - 1] == Chain(st.residues, st.lastChain.value);
    }
  }

  /** Closing the model keeps the groups, and after it nothing is pending. */
  lemma FlushModelGrouped(st: State)
    requires st.atomsList == [] && st.residues == [] && Grouped(st)
    ensures Grouped(FlushModel(st))
    ensures FlushModel(st).allAtoms == [] && FlushModel(st).chains == []
  {
    if st.chains != [] {
      var ms := FlushModel(st).models;
      assert ms[|ms| - 1] == Model(st.chains, IntToString(|st.models|), st.allAtoms);
    }
  }

  /** All three closings, as at ENDMDL and at the end of the input. */
  lemma FlushAllGrouped(st: State)
    requires st.atomsList != [] ==> st.lastResidue.Some? && st.lastChain.Some?
    requires st.residues != [] ==> st.lastChain.Some?
    requires Grouped(st)
    ensures var r := FlushModel(FlushChain(FlushResidue(st)));
      Grouped(r) && r.atomsList == [] && r.residues == [] && r.chains == [] && r.allAtoms == []
  {
    FlushResidueGrouped(st);
    FlushChainGrouped(FlushResidue(st));
    FlushModelGrouped(FlushChain(FlushResidue(st)));
  }

  /** Adding an atom to the pending residue keeps the groups. */
  lemma AcceptGrouped(st: State, f: AtomFields, name: string, isHet: bool)
    requires Grouped(st)
    ensures Grouped(Accept(st, f, name, isHet))
  {
    var a := Atom(name, f.element, f.position, f.bfactor, f.serial, isHet, IsLigand(f.initResName));
    var x, y := AtomsOfChains(st.chains), AtomsOfResidues(st.residues);
    assert (x + y + st.atomsList) + [a] == x + y + (st.atomsList + [a]);
  }

  /** Every outcome of an atom record keeps the groups. */
  lemma PlaceAtomGrouped(st: State, f: AtomFields, isHet: bool, env: Env)
    requires st.atomsList != [] ==> st.lastResidue.Some? && st.lastChain.Some?
    requires st.residues != [] ==> st.lastChain.Some?
    requires Grouped(st)
    ensures Grouped(PlaceAtom(st, f, isHet, env))
  {
    var s := st.(alternFirst := AlternFirst(st, f.altern));
    if s.atomCounter == 0 {
      AcceptGrouped(s.(residueAtoms := s.residueAtoms + {f.name}), f, f.name, isHet);
    } else if s.lastChain != Some(f.chain) {
      NewChainGrouped(s, f, isHet);
    } else if f.resNum == s.lastResidueId && !f.hasInsertCode {
      SameResidueGrouped(s, f, isHet, env);
    } else {
      NewResidueGrouped(s, f, isHet);
    }
  }

  lemma SameResidueGrouped(s: State, f: AtomFields, isHet: bool, env: Env)
    requires s.atomsList != [] ==> s.lastResidue.Some? && s.lastChain.Some?
    requires s.residues != [] ==> s.lastChain.Some?
    requires Grouped(s)
    ensures Grouped(SameResidueAtom(s, f, isHet, env))
  {
    if s.lastResidue == Some(f.resName) && f.name in s.residueAtoms &&
       !(f.altern != "" && Some(f.altern) != s.alternFirst) {
      var newName := env.findNewAtomName(s.residueAtoms, f.name);
      AcceptGrouped(s.(diags := s.diags + [Renamed(f.resName, f.resNum, f.name, newName)],
                       residueAtoms := s.residueAtoms + {newName}), f, newName, isHet);
    } else if s.lastResidue == Some(f.resName) && f.name !in s.residueAtoms {
      AcceptGrouped(s.(residueAtoms := s.residueAtoms + {f.name}), f, f.name, isHet);
    }
  }

  lemma NewResidueGrouped(s: State, f: AtomFields, isHet: bool)
    requires s.atomsList != [] ==> s.lastResidue.Some? && s.lastChain.Some?
    requires s.residues != [] ==> s.lastChain.Some?
    requires Grouped(s)
    ensures Grouped(NewResidueAtom(s, f, isHet))
  {
    FlushResidueGrouped(s);
    var s1 := FlushResidue(s);
    var gap := if f.resNum - s.lastResidueId > 1 && !f.hasInsertCode then [Discontinuous(f.chain, f.resNum)] else [];
    AcceptGrouped(s1.(residueAtoms := {f.name}, diags := s1.diags + gap), f, f.name, isHet);
  }

  lemma NewChainGrouped(s: State, f: AtomFields, isHet: bool)
    requires s.atomsList != [] ==> s.lastResidue.Some? && s.lastChain.Some?
    requires s.residues != [] ==> s.lastChain.Some?
    requires Grouped(s)
    ensures Grouped(NewChainAtom(s, f, isHet))
  {
    FlushResidueGrouped(s);
    FlushChainGrouped(FlushResidue(s));
    AcceptGrouped(FlushChain(FlushResidue(s)).(residueAtoms := {f.name}), f, f.name, isHet);
  }

  /** An atom record keeps the groups, in trajectory mode or not. */
  lemma AtomRecordGrouped(st: State, line: string, isHet: bool, opts: Options, env: Env)
    requires Inv(st, opts) && Grouped(st)
    ensures var r := AtomRecord(st, line, isHet, opts, env);
      r.Some? ==> Grouped(r.value)
  {
    if !(opts.modelsAsTraj && |st.models| == 1) && |line| >= 21 {
      var resName := Trim(line[17..21]);
      var f := ParseAtomFields(line, resName, isHet, env);
      if f.Some? {
        PlaceAtomGrouped(st, f.value, isHet, env);
      }
    }
  }

  /** ENDMDL keeps the groups and leaves nothing pending. */
  lemma EndModelGrouped(st: State, opts: Options)
    requires Inv(st, opts) && Grouped(st)
    ensures Grouped(EndModel(st, opts)) && EndModel(st, opts).allAtoms == []
  {
    FlushAllGrouped(st.(traj := EndFrames(st.traj, st.allAtoms, opts)));
  }

  /** Every line keeps the groups. */
  lemma StepGrouped(st: State, line: string, opts: Options, env: Env)
    requires Inv(st, opts) && Grouped(st)
    ensures var r := Step(st, line, opts, env);
      r.Some? ==> Grouped(r.value)
  {
    match Classify(line, opts)
    case AtomLine(isHet) => AtomRecordGrouped(st, line, isHet, opts, env);
    case EndModelLine => EndModelGrouped(st, opts);
    case _ =>
  }

  lemma {:induction false} RunFromGrouped(st: State, lines: seq<string>, i: nat, opts: Options, env: Env)
    requires i <= |lines| && Inv(st, opts) && Grouped(st)
    ensures var r := RunFrom(st, lines, i, opts, env);
      r.Success? ==> Grouped(r.value)
    decreases |lines| - i
  {
    if i < |lines| {
      StepGrouped(st, lines[i], opts, env);
      var next := Step(st, lines[i], opts, env);
      if next.Some? {
        RunFromGrouped(next.value, lines, i + 1, opts, env);
      }
    }
  }

  /**
   * A successful parse yields at least one model; every model has at least one chain,
   * every chain at least one residue, every residue at least one atom; a model's atom list
   * is the atoms of its chains in order; the models are named "0", "1", ... in order.
   */
  lemma ReadModels(lines: seq<string>, opts: Options, env: Env)
    ensures var r := Read(lines, opts, env);
      r.Success? ==> r.value.models != [] && ModelsDone(r.value.models)
  {
    InitGrouped();
    RunFromGrouped(Init, lines, 0, opts, env);
    var r := RunFrom(Init, lines, 0, opts, env);
    if r.Success? {
      FlushAllGrouped(r.value);
    }
  }

  // ---------------------------------------------------------------- trajectory mode

  /** Every frame, and the frame being filled, has one slot per atom; idA stays within them. */
  predicate FramesSized(t: Traj) {
    |t.curFrame| == t.countAtomsInModels && -1 <= t.idA <= t.countAtomsInModels &&
    forall i :: 0 <= i < |t.frames| ==> |t.frames[i]| == t.countAtomsInModels
  }

  /**
   * Frames exist only in trajectory mode. There, at most one model is built, and only once
   * a frame exists; once it exists nothing is pending. The atom count is fixed by the first
   * ENDMDL, and when it is not 0 the model exists and frame 0 holds its own positions.
   */
  predicate TrajInv(st: State, opts: Options) {
    (!opts.modelsAsTraj ==> st.traj.frames == []) &&
    (opts.modelsAsTraj ==>
       FramesSized(st.traj) && |st.models| <= 1 &&
       (st.traj.frames == [] ==> st.traj.countAtomsInModels == 0 && st.models == []) &&
       (st.models != [] ==> st.atomsList == [] && st.residues == [] && st.chains == [] && st.allAtoms == []) &&
       (st.traj.countAtomsInModels > 0 ==>
          st.models != [] && st.traj.frames[0] == Positions(st.models[0].allAtoms)))
  }

  lemma InitTraj(opts: Options)
    ensures TrajInv(Init, opts)
  {
  }

  /**
   * In trajectory mode, an atom record of a later model writes its position into the next
   * slot of the frame; past the atom count it only sets idA to -1, which stops the frame
   * from being recorded.
   */
  lemma TrajectoryAtomSlot(t: Traj, line: string, env: Env)
    requires FramesSized(t)
    ensures var r := TrajectoryAtom(t, line, env);
      if 0 <= t.idA < t.countAtomsInModels then
        r == (match Position(line, env)
              case None => None
              case Some(p) => Some(t.(curFrame := t.curFrame[t.idA := p], idA := t.idA + 1)))
      else
        r == Some(t.(idA := -1))
    ensures var r := TrajectoryAtom(t, line, env);
      r.Some? ==> FramesSized(r.value) && r.value.frames == t.frames && r.value.countAtomsInModels == t.countAtomsInModels
  {
  }

  lemma AtomRecordTraj(st: State, line: string, isHet: bool, opts: Options, env: Env)
    requires Inv(st, opts) && TrajInv(st, opts)
    ensures var r := AtomRecord(st, line, isHet, opts, env);
      r.Some? ==> TrajInv(r.value, opts)
  {
    if opts.modelsAsTraj && |st.models| == 1 {
      TrajectoryAtomSlot(st.traj, line, env);
    }
  }

  /**
   * ENDMDL in trajectory mode: the first one fixes the count and records frame 0; a later
   * one records the frame when it was filled exactly; the count never changes afterwards.
   */
  lemma EndFramesSized(t: Traj, allAtoms: seq<Atom>, opts: Options)
    requires opts.modelsAsTraj && FramesSized(t)
    ensures var r := EndFrames(t, allAtoms, opts);
      FramesSized(r) && r.frames != [] &&
      (t.frames == [] ==> r.countAtomsInModels == |allAtoms| && r.frames == [Positions(allAtoms)]) &&
      (t.frames != [] ==> r.countAtomsInModels == t.countAtomsInModels && r.frames[0] == t.frames[0] &&
                          r.frames == t.frames + (if t.idA == t.countAtomsInModels then [t.curFrame] else []))
  {
  }

  lemma EndModelTraj(st: State, opts: Options)
    requires Inv(st, opts) && Grouped(st) && TrajInv(st, opts)
    ensures TrajInv(EndModel(st, opts), opts)
  {
    if opts.modelsAsTraj {
      var t := EndFrames(st.traj, st.allAtoms, opts);
      EndFramesSized(st.traj, st.allAtoms, opts);
      var s0 := st.(traj := t);
      FlushResidueGrouped(s0);
      FlushChainGrouped(FlushResidue(s0));
      var c := FlushChain(FlushResidue(s0));
      assert c.allAtoms == st.allAtoms && c.models == st.models && c.traj == t;
      assert c.chains == [] ==> c.allAtoms == [];
    }
  }

  lemma StepTraj(st: State, line: string, opts: Options, env: Env)
    requires Inv(st, opts) && Grouped(st) && TrajInv(st, opts)
    ensures var r := Step(st, line, opts, env);
      r.Some? ==> TrajInv(r.value, opts)
  {
    match Classify(line, opts)
    case AtomLine(isHet) => AtomRecordTraj(st, line, isHet, opts, env);
    case EndModelLine => EndModelTraj(st, opts);
    case _ =>
  }

  lemma {:induction false} RunFromTraj(st: State, lines: seq<string>, i: nat, opts: Options, env: Env)
    requires i <= |lines| && Inv(st, opts) && Grouped(st) && TrajInv(st, opts)
    ensures var r := RunFrom(st, lines, i, opts, env);
      r.Success? ==> Grouped(r.value) && TrajInv(r.value, opts)
    decreases |lines| - i
  {
    if i < |lines| {
      StepGrouped(st, lines[i], opts, env);
      StepTraj(st, lines[i], opts, env);
      var next := Step(st, lines[i], opts, env);
      if next.Some? {
        RunFromTraj(next.value, lines, i + 1, opts, env);
      }
    }
  }

  /**
   * The frames of a parse. Without trajectory mode there are none. In trajectory mode the
   * file yields exactly one model, all frames have the same number of positions, and when
   * that number is not 0 the first frame holds the positions of the model's atoms.
   */
  lemma ReadFrames(lines: seq<string>, opts: Options, env: Env)
    ensures var r := Read(lines, opts, env);
      r.Success? ==>
        (!opts.modelsAsTraj ==> r.value.frames == []) &&
        (opts.modelsAsTraj ==>
           |r.value.models| == 1 &&
           (forall i :: 0 <= i < |r.value.frames| ==> |r.value.frames[i]| == |r.value.frames[0]|) &&
           (r.value.frames != [] && r.value.frames[0] != [] ==>
              r.value.frames[0] == Positions(r.value.models[0].allAtoms)))
  {
    InitGrouped();
    InitTraj(opts);
    RunFromTraj(Init, lines, 0, opts, env);
    var r := RunFrom(Init, lines, 0, opts, env);
    if r.Success? {
      FinishFrames(r.value, opts);
    }
  }

  /** The frames a finished parse reports, from the loop's final state. */
  lemma FinishFrames(st: State, opts: Options)
    requires Inv(st, opts) && Grouped(st) && TrajInv(st, opts)
    ensures var r := Finish(st, opts);
      r.Success? ==>
        (!opts.modelsAsTraj ==> r.value.frames == []) &&
        (opts.modelsAsTraj ==>
           |r.value.models| == 1 &&
           (forall i :: 0 <= i < |r.value.frames| ==> |r.value.frames[i]| == |r.value.frames[0]|) &&
           (r.value.frames != [] && r.value.frames[0] != [] ==>
              r.value.frames[0] == Positions(r.value.models[0].allAtoms)))
  {
    if opts.modelsAsTraj {
      FlushAllGrouped(st);
      var c := FlushChain(FlushResidue(st));
      assert c.models == st.models && c.traj == st.traj;
    }
  }

  // ---------------------------------------------------------------- kinds of line

  /**
   * No record name is a prefix of another, so the order of the loop's tests does not
   * matter: a line that is not blank has the kind its record name says (a HETATM record
   * only when HETATM records are read).
   */
  lemma ClassifyKinds(line: string, opts: Options)
    ensures Classify(line, opts) == AtomLine(false) <==> !AllWhite(line) && StartsWith(line, "ATOM")
    ensures Classify(line, opts) == AtomLine(true) <==> !AllWhite(line) && StartsWith(line, "HETATM") && opts.readHET
    ensures Classify(line, opts) == SkippedHet <==> !AllWhite(line) && StartsWith(line, "HETATM") && !opts.readHET
    ensures Classify(line, opts) == ChemBondLine <==> !AllWhite(line) && StartsWith(line, "CHEMBOND")
    ensures Classify(line, opts) == EndModelLine <==> !AllWhite(line) && StartsWith(line, "ENDMDL")
    ensures Classify(line, opts) == HelixLine <==> !AllWhite(line) && StartsWith(line, "HELIX")
    ensures Classify(line, opts) == SheetLine <==> !AllWhite(line) && StartsWith(line, "SHEET")
    ensures Classify(line, opts) == ConectLine <==> !AllWhite(line) && StartsWith(line, "CONECT")
  {
    if |line| > 0 {
      assert StartsWith(line, "ATOM") ==> line[0] == 'A';
      assert StartsWith(line, "HETATM") ==> line[0] == 'H' && line[1] == 'E';
      assert StartsWith(line, "HELIX") ==> line[0] == 'H' && line[1] == 'E' && line[2] == 'L';
      assert StartsWith(line, "CHEMBOND") ==> line[0] == 'C' && line[1] == 'H';
      assert StartsWith(line, "CONECT") ==> line[0] == 'C' && line[1] == 'O';
      assert StartsWith(line, "ENDMDL") ==> line[0] == 'E';
      assert StartsWith(line, "SHEET") ==> line[0] == 'S';
    }
  }

  // ---------------------------------------------------------------- records on the side

  /**
   * A CONECT record succeeds exactly when its root atom and every slot the loop reads are
   * numbers; it then appends one pair (root, partner) per slot, in column order, the loop
   * having stopped at the end of the line or at a slot ending in a blank.
   */
  lemma ConectRecordPairs(st: State, line: string)
    ensures var r := ConectRecord(st, line);
      r.Some? <==> |line| >= 11 && ParseInt(line[6..11]).Some? && ConectPartners(line, 11).Some?
    ensures var r := ConectRecord(st, line);
      r.Some? ==>
        var added := r.value.bondedAtoms[|st.bondedAtoms|..];
        |st.bondedAtoms| <= |r.value.bondedAtoms| && r.value.bondedAtoms[..|st.bondedAtoms|] == st.bondedAtoms &&
        11 + 5 * |added| <= |line| && StopsAt(line, 11 + 5 * |added|) &&
        forall i :: 0 <= i < |added| ==>
          Some(added[i].x) == ParseInt(line[6..11]) &&
          line[11 + 5 * i + 4] != ' ' && ParseInt(Slot(line, 11 + 5 * i)) == Some(added[i].y)
  {
    if |line| >= 11 {
      ConectPartnersRead(line, 11);
      var r := ConectRecord(st, line);
      if r.Some? {
        var ps := ConectPartners(line, 11).value;
        var added := PairsWith(ParseInt(line[6..11]).value, ps);
        assert r.value.bondedAtoms == st.bondedAtoms + added;
        assert r.value.bondedAtoms[|st.bondedAtoms|..] == added;
      }
    }
  }

  /**
   * A CHEMBOND record made of exactly three tokens separated by single blanks appends the
   * pair read from the second and third; any other line is skipped, and a token that is
   * not a number is an error only with three tokens.
   */
  lemma ChemBondPair(st: State, line: string)
    ensures var r := ChemBondRecord(st, line);
      Occurrences(line, ' ') != 2 ==> r == Some(st)
    ensures var r := ChemBondRecord(st, line); var t := Split(line, ' ');
      Occurrences(line, ' ') == 2 ==>
        line == t[0] + " " + t[1] + " " + t[2] &&
        (r.Some? <==> ParseInt(t[1]).Some? && ParseInt(t[2]).Some?) &&
        (r.Some? ==> r.value.chemBonds == st.chemBonds + [Int2(ParseInt(t[1]).value, ParseInt(t[2]).value)])
  {
    var t := Split(line, ' ');
    if |t| == 3 {
      JoinThree(t, ' ');
    }
  }

  // ---------------------------------------------------------------- alternate locations

  /** PlaceAtom sets alternFirst to the first non-blank alternate location, kept or not. */
  lemma PlaceAtomAlternFirst(st: State, f: AtomFields, isHet: bool, env: Env)
    requires st.atomsList != [] ==> st.lastResidue.Some? && st.lastChain.Some?
    requires st.residues != [] ==> st.lastChain.Some?
    ensures PlaceAtom(st, f, isHet, env).alternFirst == AlternFirst(st, f.altern)
  {
  }

  /**
   * Once an alternate location is chosen, no later line changes it: the reader keeps the
   * first alternate location of the file, not of each residue.
   */
  lemma StepAlternFirst(st: State, line: string, opts: Options, env: Env)
    requires Inv(st, opts) && st.alternFirst.Some?
    ensures var r := Step(st, line, opts, env);
      r.Some? ==> r.value.alternFirst == st.alternFirst
  {
    match Classify(line, opts)
    case AtomLine(isHet) => AtomRecordAlternFirst(st, line, isHet, opts, env);
    case _ =>
  }

  lemma AtomRecordAlternFirst(st: State, line: string, isHet: bool, opts: Options, env: Env)
    requires Inv(st, opts) && st.alternFirst.Some?
    ensures var r := AtomRecord(st, line, isHet, opts, env);
      r.Some? ==> r.value.alternFirst == st.alternFirst
  {
    if !(opts.modelsAsTraj && |st.models| == 1) && |line| >= 21 {
      var f := ParseAtomFields(line, Trim(line[17..21]), isHet, env);
      if f.Some? {
        PlaceAtomAlternFirst(st, f.value, isHet, env);
      }
    }
  }

  lemma {:induction false} RunFromAlternFirst(st: State, lines: seq<string>, i: nat, opts: Options, env: Env)
    requires i <= |lines| && Inv(st, opts) && st.alternFirst.Some?
    ensures var r := RunFrom(st, lines, i, opts, env);
      r.Success? ==> r.value.alternFirst == st.alternFirst
    decreases |lines| - i
  {
    if i < |lines| {
      StepAlternFirst(st, lines[i], opts, env);
      var next := Step(st, lines[i], opts, env);
      if next.Some? {
        RunFromAlternFirst(next.value, lines, i + 1, opts, env);
      }
    }
  }

  // ---------------------------------------------------------------- errors

  /**
   * An exception names a line after the ones already read: the 1-based number of a line
   * that is not blank, every line before it having been read without error, and the line
   * itself failing.
   */
  lemma {:induction false} RunFromError(st: State, lines: seq<string>, i: nat, opts: Options, env: Env)
    requires i <= |lines| && Inv(st, opts)
    ensures var r := RunFrom(st, lines, i, opts, env);
      r.Failure? ==>
        r.error.ParsingException? && i < r.error.lineNumber <= |lines| &&
        r.error.line == lines[r.error.lineNumber - 1] && !AllWhite(r.error.line) &&
        var before := RunFrom(st, lines[..r.error.lineNumber - 1], i, opts, env);
        before.Success? && Step(before.value, r.error.line, opts, env).None?
    decreases |lines| - i
  {
    if i < |lines| {
      var next := Step(st, lines[i], opts, env);
      if next.None? {
        assert RunFrom(st, lines[..i], i, opts, env) == Success(st);
      } else {
        RunFromError(next.value, lines, i + 1, opts, env);
        var r := RunFrom(next.value, lines, i + 1, opts, env);
        if r.Failure? {
          var p := lines[..r.error.lineNumber - 1];
          assert p[i] == lines[i];
          assert RunFrom(st, p, i, opts, env) == RunFrom(next.value, p, i + 1, opts, env);
        }
      }
    }
  }

  /**
   * ReadData fails either at the first line that raises an exception, reported with its
   * 1-based number, or, after reading every line, because no model was built.
   */
  lemma ReadError(lines: seq<string>, opts: Options, env: Env)
    ensures var r := Read(lines, opts, env);
      r.Failure? && r.error.ParsingException? ==>
        0 < r.error.lineNumber <= |lines| && r.error.line == lines[r.error.lineNumber - 1] &&
        !AllWhite(r.error.line) &&
        var before := RunFrom(Init, lines[..r.error.lineNumber - 1], 0, opts, env);
        before.Success? && Step(before.value, r.error.line, opts, env).None?
    ensures var r := Read(lines, opts, env);
      r == Failure(NoModels) <==>
        RunFrom(Init, lines, 0, opts, env).Success? &&
        FlushModel(FlushChain(FlushResidue(RunFrom(Init, lines, 0, opts, env).value))).models == []
  {
    RunFromError(Init, lines, 0, opts, env);
  }
}
