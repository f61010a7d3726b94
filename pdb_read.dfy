/**
 * PDBReader.ReadData: one forward pass over the lines of a PDB file. The reader keeps the
 * pending atoms, residues and chains of the model being read and closes them when the
 * residue, the chain or the model changes. In trajectory mode, once the first model is
 * complete, later models only fill coordinate frames. HELIX, SHEET, CONECT and CHEMBOND
 * records are collected on the side.
 *
 * This module states the pass as a function: Step is the body of the while loop for one
 * line, RunFrom folds it over the lines and Finish is the code after the loop.
 */
module PdbRead {
  import opened Wrappers
  import opened Text
  import opened Molecule
  import opened PdbFields

  /** The reader's switches: readHET and readWater are arguments, modelsAsTraj a field. */
  datatype Options = Options(readHET: bool, readWater: bool, modelsAsTraj: bool)

  /**
   * What the reader asks of code outside it:
   *   isKnownAtom      the element table's isKnownAtom;
   *   isWater          membership in WaterSelection.waterResidues, ignoring case;
   *   findNewAtomName  the new, unique name for a repeated atom name of a residue;
   *   parseFloat       float.Parse of a trimmed coordinate field (None where it throws);
   *   tryParseFloat    float.TryParse of the B-factor field.
   */
  datatype Env = Env(isKnownAtom: string -> bool, isWater: string -> bool,
                     findNewAtomName: (set<string>, string) -> string,
                     parseFloat: string -> Option<real>, tryParseFloat: string -> Option<real>)

  /** The messages the reader collects in its `debug` builder. */
  datatype Diag =
    | MultipleDefinition(resNum: int, chain: string)
    | AlternIgnored(resName: string, resNum: int, atomName: string)
    | Renamed(resName: string, resNum: int, atomName: string, newName: string)
    | Discontinuous(chain: string, resNum: int)

  /** ParsingException (with the 1-based line number and the line) or "PDB parsing error". */
  datatype ReadError = ParsingException(lineNumber: nat, line: string) | NoModels

  /**
   * The trajectory locals of ReadData: the atom count of the first model, the next slot
   * idA (-1 once a model has too many atoms), curFrame, the frame being filled (empty
   * before trajectory mode starts), and the frames recorded so far.
   */
  datatype Traj = Traj(countAtomsInModels: nat, idA: int, curFrame: seq<Vec3>, frames: seq<seq<Vec3>>)

  /** The other local variables of ReadData. A null lastChain/lastResidue/alternFirst is None. */
  datatype State = State(
    models: seq<Model>, chains: seq<Chain>, residues: seq<Residue>,
    atomsList: seq<Atom>, allAtoms: seq<Atom>, residueAtoms: set<string>,
    lastChain: Option<string>, lastResidue: Option<string>, lastResidueId: int,
    alternFirst: Option<string>, cptAltern: nat, atomCounter: nat, curModel: nat,
    traj: Traj,
    parsedSS: seq<SecStruct>, chemBonds: seq<Int2>, bondedAtoms: seq<Int2>, diags: seq<Diag>)

  /** What ReadData hands to the structure: models, frames, CONECT, CHEMBOND and SS data. */
  datatype Parsed = Parsed(models: seq<Model>, frames: seq<seq<Vec3>>, connectivity: seq<Int2>,
                           chemBonds: seq<Int2>, secStructs: seq<SecStruct>, diags: seq<Diag>)

  const Init: State := State([], [], [], [], [], {}, None, None, -1, None, 0, 0, 0, Traj(0, 0, [], []),
                             [], [], [], [])

  /**
   * What the code relies on without checking: pending atoms have a residue name and a chain,
   * pending residues have a chain, and in trajectory mode the frame has one slot per atom
   * of the first model once a model exists.
   */
  predicate Inv(st: State, opts: Options) {
    (st.atomsList != [] ==> st.lastResidue.Some? && st.lastChain.Some?) &&
    (st.residues != [] ==> st.lastChain.Some?) &&
    (opts.modelsAsTraj && st.models != [] ==> |st.traj.curFrame| == st.traj.countAtomsInModels)
  }

  // ---------------------------------------------------------------- fields

  /** float.Parse(line.Substring(start, 8).Trim()). */
  function Coordinate(line: string, start: nat, env: Env): Option<real> {
    if start + 8 <= |line| then env.parseFloat(Trim(line[start..start + 8])) else None
  }

  /** Columns [30,54): x, y, z; x is negated (PDB is right-handed, Unity left-handed). */
  function Position(line: string, env: Env): (r: Option<Vec3>)
    ensures r.Some? <==> Coordinate(line, 30, env).Some? && Coordinate(line, 38, env).Some? &&
                         Coordinate(line, 46, env).Some?
    ensures r.Some? ==> 54 <= |line| && Coordinate(line, 30, env) == Some(-r.value.x) &&
                        Coordinate(line, 38, env) == Some(r.value.y) &&
                        Coordinate(line, 46, env) == Some(r.value.z)
  {
    var x :- Coordinate(line, 30, env);
    var y :- Coordinate(line, 38, env);
    var z :- Coordinate(line, 46, env);
    Some(Vec3(-x, y, z))
  }

  /** Columns [60,66) when the line reaches column 67 and they parse, else 0. */
  function BFactor(line: string, env: Env): real {
    if |line| >= 67 then
      match env.tryParseFloat(line[60..66])
      case Some(b) => b
      case None => 0.0
    else 0.0
  }

  /** GuessElementFromAtomName, which throws on an empty name. */
  function Guessed(atomName: string, resName: string, isHet: bool, env: Env): Option<string> {
    if atomName == [] then None
    else Some(GuessElementFromAtomName(atomName, resName, isHet, env.isKnownAtom))
  }

  /**
   * The element: columns [76,78) trimmed when they name a known element; otherwise, or when
   * the line is too short, the element guessed from the atom name.
   */
  function Element(line: string, atomName: string, resName: string, isHet: bool, env: Env):
    (r: Option<string>)
    ensures r.None? <==> atomName == [] && (|line| < 78 || Trim(line[76..78]) == [] ||
                                            !env.isKnownAtom(Trim(line[76..78])))
    ensures |line| >= 78 && Trim(line[76..78]) != [] && env.isKnownAtom(Trim(line[76..78])) ==>
              r == Some(Trim(line[76..78]))
    ensures !(|line| >= 78 && Trim(line[76..78]) != [] && env.isKnownAtom(Trim(line[76..78]))) &&
            atomName != [] ==>
              r == Some(GuessElementFromAtomName(atomName, resName, isHet, env.isKnownAtom))
  {
    if |line| >= 78 then
      var e := Trim(line[76..78]);
      if e != [] && env.isKnownAtom(e) then Some(e) else Guessed(atomName, resName, isHet, env)
    else Guessed(atomName, resName, isHet, env)
  }

  /** The fields of an ATOM/HETATM record, once the residue name is read. */
  datatype AtomFields = AtomFields(serial: int, name: string, chain: string, resNum: int,
                                   hasInsertCode: bool, initResName: string, resName: string,
                                   altern: string, position: Vec3, bfactor: real, element: string)

  /**
   * Columns of an atom record: serial [6,11), name [12,16) trimmed, alternate location 16,
   * residue name [17,21) trimmed (given), chain 21 (a blank becomes "_"), residue number
   * [22,26), insertion code 26 (appended to the residue name after "_"), coordinates
   * [30,54). Every column read before the element lies within the first 54, so a shorter
   * line throws whichever Substring comes first.
   */
  function ParseAtomFields(line: string, resName: string, isHet: bool, env: Env): (r: Option<AtomFields>)
    ensures r.Some? ==> |line| >= 54 && r.value.initResName == resName
    ensures r.Some? ==> ParseInt(line[6..11]) == Some(r.value.serial) &&
                        ParseInt(line[22..26]) == Some(r.value.resNum) &&
                        r.value.name == Trim(line[12..16]) && r.value.altern == Trim(line[16..17])
    ensures r.Some? ==> r.value.chain == (if line[21] == ' ' then "_" else [line[21]])
    ensures r.Some? ==> r.value.hasInsertCode == !IsWhite(line[26]) &&
                        r.value.resName == (if IsWhite(line[26]) then resName else resName + "_" + [line[26]])
    ensures r.Some? ==> Position(line, env) == Some(r.value.position) &&
                        r.value.bfactor == BFactor(line, env) &&
                        Element(line, r.value.name, resName, isHet, env) == Some(r.value.element)
    ensures r.None? <==> |line| < 54 || ParseInt(line[6..11]).None? || ParseInt(line[22..26]).None? ||
                         Position(line, env).None? ||
                         Element(line, Trim(line[12..16]), resName, isHet, env).None?
  {
    if |line| < 54 then None
    else
      var serial :- ParseInt(line[6..11]);
      var resNum :- ParseInt(line[22..26]);
      var hasInsertCode := !IsWhite(line[26]);
      var fullResName := if hasInsertCode then resName + "_" + [line[26]] else resName;
      var position :- Position(line, env);
      var name := Trim(line[12..16]);
      var element :- Element(line, name, resName, isHet, env);
      var chain := if line[21] == ' ' then "_" else [line[21]];
      Some(AtomFields(serial, name, chain, resNum, hasInsertCode, resName, fullResName,
                      Trim(line[16..17]), position, BFactor(line, env), element))
  }

  // ---------------------------------------------------------------- grouping

  /** Records the pending residue, if it has atoms. */
  function FlushResidue(st: State): (r: State)
    requires st.atomsList != [] ==> st.lastResidue.Some?
    ensures r.atomsList == [] && r.chains == st.chains && r.allAtoms == st.allAtoms
    ensures r.models == st.models && r.traj == st.traj
  {
    if st.atomsList != [] then
      st.(residues := st.residues + [Residue(st.lastResidueId, st.atomsList, st.lastResidue.value)],
          atomsList := [])
    else st
  }

  /** Records the pending chain, if it has residues. */
  function FlushChain(st: State): (r: State)
    requires st.residues != [] ==> st.lastChain.Some?
    ensures r.residues == [] && r.atomsList == st.atomsList && r.allAtoms == st.allAtoms
    ensures r.models == st.models && r.traj == st.traj
  {
    if st.residues != [] then
      st.(chains := st.chains + [Chain(st.residues, st.lastChain.value)], residues := [])
    else st
  }

  /** Records the model, named by its number, if it has chains. */
  function FlushModel(st: State): (r: State)
    ensures st.chains == [] ==> r == st
    ensures st.chains != [] ==> r.models == st.models + [Model(st.chains, IntToString(st.curModel), st.allAtoms)] &&
                                r.chains == [] && r.allAtoms == [] && r.curModel == st.curModel + 1
    ensures r.traj == st.traj
  {
    if st.chains != [] then
      st.(models := st.models + [Model(st.chains, IntToString(st.curModel), st.allAtoms)],
          allAtoms := [], chains := [], curModel := st.curModel + 1)
    else st
  }

  /** Adds an accepted atom, named `name`, to the pending residue and to allAtoms. */
  function Accept(st: State, f: AtomFields, name: string, isHet: bool): (r: State)
    ensures r.lastResidue == Some(f.resName) && r.lastChain == Some(f.chain) && r.residues == st.residues
    ensures r.models == st.models && r.traj == st.traj
    ensures var a := Atom(name, f.element, f.position, f.bfactor, f.serial, isHet, IsLigand(f.initResName));
      r.atomsList == st.atomsList + [a] && r.allAtoms == st.allAtoms + [a] && r.atomCounter == st.atomCounter + 1
    ensures r.chains == st.chains && r.curModel == st.curModel
  {
    var a := Atom(name, f.element, f.position, f.bfactor, f.serial, isHet, IsLigand(f.initResName));
    st.(atomsList := st.atomsList + [a], allAtoms := st.allAtoms + [a], lastChain := Some(f.chain),
        lastResidueId := f.resNum, lastResidue := Some(f.resName), atomCounter := st.atomCounter + 1)
  }

  /** alternFirst after an atom with alternate location `altern`: the first non-blank one. */
  function AlternFirst(st: State, altern: string): Option<string> {
    if altern != "" && st.alternFirst.None? then Some(altern) else st.alternFirst
  }

  /**
   * The checks an atom record goes through before it is added: in the same chain and under
   * the same residue number (without insertion code) the atom is dropped if its residue
   * name differs or if its name is taken and its alternate location is a later one; a
   * taken name is otherwise replaced. Any other atom closes the pending residue (and, on a
   * change of chain, the pending chain) before it is added. The first atom of the file
   * skips all checks.
   */
  function PlaceAtom(st: State, f: AtomFields, isHet: bool, env: Env): (r: State)
    requires st.atomsList != [] ==> st.lastResidue.Some? && st.lastChain.Some?
    requires st.residues != [] ==> st.lastChain.Some?
    ensures r.atomsList != [] ==> r.lastResidue.Some? && r.lastChain.Some?
    ensures r.residues != [] ==> r.lastChain.Some?
    ensures r.models == st.models && r.traj == st.traj
  {
    var s := st.(alternFirst := AlternFirst(st, f.altern));
    if s.atomCounter == 0 then Accept(s.(residueAtoms := s.residueAtoms + {f.name}), f, f.name, isHet)
    else if s.lastChain != Some(f.chain) then NewChainAtom(s, f, isHet)
    else if f.resNum == s.lastResidueId && !f.hasInsertCode then SameResidueAtom(s, f, isHet, env)
    else NewResidueAtom(s, f, isHet)
  }

  /** Same chain, same residue number: drop, rename or add the atom. */
  function SameResidueAtom(s: State, f: AtomFields, isHet: bool, env: Env): (r: State)
    requires s.atomsList != [] ==> s.lastResidue.Some? && s.lastChain.Some?
    requires s.residues != [] ==> s.lastChain.Some?
    ensures r.atomsList != [] ==> r.lastResidue.Some? && r.lastChain.Some?
    ensures r.residues != [] ==> r.lastChain.Some?
    ensures r.models == s.models && r.traj == s.traj
  {
    if s.lastResidue != Some(f.resName) then
      s.(diags := s.diags + [MultipleDefinition(f.resNum, f.chain)])
    else if f.name in s.residueAtoms then
      if f.altern != "" && Some(f.altern) != s.alternFirst then
        s.(diags := if s.cptAltern < 20 then s.diags + [AlternIgnored(f.resName, f.resNum, f.name)]
                    else s.diags,
           cptAltern := s.cptAltern + 1)
      else
        var newName := env.findNewAtomName(s.residueAtoms, f.name);
        Accept(s.(diags := s.diags + [Renamed(f.resName, f.resNum, f.name, newName)],
                  residueAtoms := s.residueAtoms + {newName}), f, newName, isHet)
    else
      Accept(s.(residueAtoms := s.residueAtoms + {f.name}), f, f.name, isHet)
  }

  /** Same chain, another residue: the pending residue is closed; a gap is reported. */
  function NewResidueAtom(s: State, f: AtomFields, isHet: bool): (r: State)
    requires s.atomsList != [] ==> s.lastResidue.Some? && s.lastChain.Some?
    requires s.residues != [] ==> s.lastChain.Some?
    ensures r.atomsList != [] ==> r.lastResidue.Some? && r.lastChain.Some?
    ensures r.residues != [] ==> r.lastChain.Some?
    ensures r.models == s.models && r.traj == s.traj
  {
    var s1 := FlushResidue(s);
    var gap := if f.resNum - s.lastResidueId > 1 && !f.hasInsertCode then [Discontinuous(f.chain, f.resNum)] else [];
    Accept(s1.(residueAtoms := {f.name}, diags := s1.diags + gap), f, f.name, isHet)
  }

  /** Another chain: the pending residue and the pending chain are closed. */
  function NewChainAtom(s: State, f: AtomFields, isHet: bool): (r: State)
    requires s.atomsList != [] ==> s.lastResidue.Some? && s.lastChain.Some?
    requires s.residues != [] ==> s.lastChain.Some?
    ensures r.atomsList != [] ==> r.lastResidue.Some? && r.lastChain.Some?
    ensures r.residues != [] ==> r.lastChain.Some?
    ensures r.models == s.models && r.traj == s.traj
  {
    var s1 := FlushChain(FlushResidue(s));
    Accept(s1.(residueAtoms := {f.name}), f, f.name, isHet)
  }

  /** In trajectory mode: the next slot of the frame, or idA = -1 once the model has too many atoms. */
  function TrajectoryAtom(t: Traj, line: string, env: Env): Option<Traj>
    requires |t.curFrame| == t.countAtomsInModels
  {
    if t.idA >= t.countAtomsInModels || t.idA < 0 then Some(t.(idA := -1))
    else
      var p :- Position(line, env);
      Some(t.(curFrame := t.curFrame[t.idA := p], idA := t.idA + 1))
  }

  /** An ATOM or HETATM record. */
  function AtomRecord(st: State, line: string, isHet: bool, opts: Options, env: Env): (r: Option<State>)
    requires Inv(st, opts)
    ensures r.Some? ==> Inv(r.value, opts)
  {
    if opts.modelsAsTraj && |st.models| == 1 then
      var t :- TrajectoryAtom(st.traj, line, env);
      Some(st.(traj := t))
    else if |line| < 21 then None
    else
      var resName := Trim(line[17..21]);
      if !opts.readWater && env.isWater(resName) then Some(st)
      else
        var f :- ParseAtomFields(line, resName, isHet, env);
        Some(PlaceAtom(st, f, isHet, env))
  }

  /** The zero-filled frame of `n` atoms (new Vector3[n]). */
  function Zeros(n: nat): (r: seq<Vec3>)
    ensures |r| == n
  {
    seq(n, _ => Origin)
  }

  /**
   * The trajectory part of ENDMDL. The first ENDMDL records frame 0 from allAtoms and fixes
   * the atom count; a later one records the frame only if it has exactly that many atoms.
   * The frame is then cleared and idA reset.
   */
  function EndFrames(t: Traj, allAtoms: seq<Atom>, opts: Options): (r: Traj)
    ensures r.idA == 0
  {
    var t1 := if !opts.modelsAsTraj then t
              else if t.frames == [] then
                Traj(|allAtoms|, t.idA, Zeros(|allAtoms|), [Positions(allAtoms)])
              else if t.idA == t.countAtomsInModels then
                t.(frames := t.frames + [t.curFrame], curFrame := Zeros(t.countAtomsInModels))
              else t.(curFrame := Zeros(t.countAtomsInModels));
    t1.(idA := 0)
  }

  /** ENDMDL: the frames are updated, then the pending residue, chain and model are closed. */
  function EndModel(st: State, opts: Options): (r: State)
    requires Inv(st, opts)
    ensures Inv(r, opts)
    ensures r.lastChain.None? && r.lastResidue.None? && r.lastResidueId == -1
    ensures r.atomsList == [] && r.residues == [] && r.chains == []
    ensures r.traj == EndFrames(st.traj, st.allAtoms, opts) && r.alternFirst == st.alternFirst
  {
    var closed := FlushModel(FlushChain(FlushResidue(st.(traj := EndFrames(st.traj, st.allAtoms, opts)))));
    closed.(lastChain := None, lastResidue := None, lastResidueId := -1)
  }

  /** HELIX: chain [19,21) trimmed, first residue [21,25), last [33,37), helix class [38,40). */
  function HelixRecord(st: State, line: string): (r: Option<State>)
    ensures r.Some? ==> |line| >= 40 && r.value == st.(parsedSS := r.value.parsedSS)
    ensures r.Some? ==> |r.value.parsedSS| == |st.parsedSS| + 1 && r.value.parsedSS[..|st.parsedSS|] == st.parsedSS
  {
    if |line| < 40 then None
    else
      var start :- ParseInt(line[21..25]);
      var end :- ParseInt(line[33..37]);
      var cls :- ParseInt(line[38..40]);
      Some(st.(parsedSS := st.parsedSS + [SecStruct(start, end, Trim(line[19..21]), cls)]))
  }

  /** SHEET: chain [21,23) trimmed, first residue [23,26), last [34,37); always a strand. */
  function SheetRecord(st: State, line: string): (r: Option<State>)
    ensures r.Some? ==> |line| >= 37 && r.value == st.(parsedSS := r.value.parsedSS)
    ensures r.Some? ==> |r.value.parsedSS| == |st.parsedSS| + 1 && r.value.parsedSS[..|st.parsedSS|] == st.parsedSS &&
                        r.value.parsedSS[|st.parsedSS|].ssType == Strand
  {
    if |line| < 37 then None
    else
      var start :- ParseInt(line[23..26]);
      var end :- ParseInt(line[34..37]);
      Some(st.(parsedSS := st.parsedSS + [SecStruct(start, end, Trim(line[21..23]), Strand)]))
  }

  /**
   * SHEET with the columns of the PDB format and of PdbWriteSS.SheetText: chain [21,22),
   * first residue [22,26), last [33,37).
   */
  function SheetRecordFixed(st: State, line: string): (r: Option<State>)
    ensures r.Some? ==> |line| >= 37 && r.value == st.(parsedSS := r.value.parsedSS)
    ensures r.Some? ==> |r.value.parsedSS| == |st.parsedSS| + 1 && r.value.parsedSS[..|st.parsedSS|] == st.parsedSS &&
                        r.value.parsedSS[|st.parsedSS|].ssType == Strand
  {
    if |line| < 37 then None
    else
      var start :- ParseInt(line[22..26]);
      var end :- ParseInt(line[33..37]);
      Some(st.(parsedSS := st.parsedSS + [SecStruct(start, end, Trim(line[21..22]), Strand)]))
  }

  /** The 5-column slot of a CONECT record that starts at column j. */
  function Slot(line: string, j: nat): string
    requires j + 5 <= |line|
  {
    line[j..j + 5]
  }

  /** The slot at column j does not end in a blank and reads as v. */
  predicate SlotHolds(line: string, j: nat, v: int)
    requires j + 5 <= |line|
  {
    line[j + 4] != ' ' && ParseInt(Slot(line, j)) == Some(v)
  }

  /** `ps` are the numbers of consecutive slots from column k, none ending in a blank. */
  predicate SlotsRead(line: string, k: nat, ps: seq<int>) {
    k + 5 * |ps| <= |line| &&
    forall i :: 0 <= i < |ps| ==> SlotHolds(line, k + 5 * i, ps[i])
  }

  /** The slot loop ends at column j: no room for a slot, or the slot ends in a blank. */
  predicate StopsAt(line: string, j: nat) {
    j + 5 > |line| || line[j + 4] == ' '
  }

  /**
   * The number of slots the loop reads from column k: it stops at the end of the line or
   * at the first slot whose last column is a blank.
   */
  function SlotCount(line: string, k: nat): (n: nat)
    requires k <= |line|
    ensures k + 5 * n <= |line| && StopsAt(line, k + 5 * n)
    ensures forall i :: 0 <= i < n ==> line[k + 5 * i + 4] != ' '
    decreases |line| - k
  {
    if k + 5 < |line| + 1 && line[k + 4] != ' ' then
      var n := 1 + SlotCount(line, k + 5);
      forall i | 0 <= i < n
        ensures line[k + 5 * i + 4] != ' '
      {
        if i > 0 {
          assert k + 5 * i + 4 == (k + 5) + 5 * (i - 1) + 4;
        }
      }
      n
    else 0
  }

  /** int.Parse on each of `count` consecutive slots from column k; None where it throws. */
  function SlotNumbers(line: string, k: nat, count: nat): (r: seq<Option<int>>)
    requires k + 5 * count <= |line|
    ensures |r| == count && forall i :: 0 <= i < count ==> r[i] == ParseInt(Slot(line, k + 5 * i))
  {
    seq(count, i requires 0 <= i < count => ParseInt(Slot(line, k + 5 * i)))
  }

  /** The numbers read one after the other; None at the first read that threw. */
  function AllRead(vs: seq<Option<int>>): Option<seq<int>> {
    if vs == [] then Some([])
    else
      match vs[0]
      case None => None
      case Some(n) => Prefixed([n], AllRead(vs[1..]))
  }

  /** `acc` followed by what `rest` holds, or None when `rest` is None. */
  function Prefixed(acc: seq<int>, rest: Option<seq<int>>): Option<seq<int>> {
    match rest
    case None => None
    case Some(ps) => Some(acc + ps)
  }

  /** AllRead keeps every number, and fails exactly when some read threw. */
  lemma {:induction false} AllReadValues(vs: seq<Option<int>>)
    ensures AllRead(vs).Some? <==> forall i :: 0 <= i < |vs| ==> vs[i].Some?
    ensures AllRead(vs).Some? ==>
      |AllRead(vs).value| == |vs| && forall i :: 0 <= i < |vs| ==> vs[i] == Some(AllRead(vs).value[i])
  {
    if vs != [] {
      AllReadValues(vs[1..]);
      if vs[0].Some? && AllRead(vs[1..]).Some? {
        var r := [vs[0].value] + AllRead(vs[1..]).value;
        assert AllRead(vs) == Some(r);
        forall i | 0 <= i < |vs|
          ensures vs[i] == Some(r[i])
        {
          if i > 0 {
            assert vs[i] == vs[1..][i - 1];
          }
        }
      } else if vs[0].Some? {
        var j :| 0 <= j < |vs[1..]| && vs[1..][j].None?;
        assert vs[j + 1].None?;
      }
    }
  }

  /**
   * The bonded atoms of a CONECT record from column k on: the numbers of the slots the
   * loop reads, or None when one of them is not a number.
   */
  function ConectPartners(line: string, k: nat): Option<seq<int>>
    requires k <= |line|
  {
    AllRead(SlotNumbers(line, k, SlotCount(line, k)))
  }

  /**
   * The partners are read from consecutive slots up to the slot where the loop stops, and
   * the record throws exactly when one of the slots before that one is not a number.
   */
  lemma ConectPartnersRead(line: string, k: nat)
    requires k <= |line|
    ensures var r := ConectPartners(line, k);
      r.Some? ==> SlotsRead(line, k, r.value) && StopsAt(line, k + 5 * |r.value|)
    ensures ConectPartners(line, k).None? <==>
      exists i :: 0 <= i < SlotCount(line, k) && ParseInt(Slot(line, k + 5 * i)).None?
  {
    var vs := SlotNumbers(line, k, SlotCount(line, k));
    AllReadValues(vs);
    if AllRead(vs).Some? {
      var ps := AllRead(vs).value;
      forall i | 0 <= i < |ps|
        ensures SlotHolds(line, k + 5 * i, ps[i])
      {
        assert vs[i] == Some(ps[i]);
      }
      forall i | 0 <= i < |vs|
        ensures ParseInt(Slot(line, k + 5 * i)).Some?
      {
        assert vs[i].Some?;
      }
    } else {
      var i :| 0 <= i < |vs| && vs[i].None?;
      assert ParseInt(Slot(line, k + 5 * i)).None?;
    }
  }

  /** The pairs (root, partner) of one CONECT record. */
  function PairsWith(root: int, partners: seq<int>): (r: seq<Int2>)
    ensures |r| == |partners| && forall i :: 0 <= i < |r| ==> r[i] == Int2(root, partners[i])
  {
    seq(|partners|, i requires 0 <= i < |partners| => Int2(root, partners[i]))
  }

  /** CONECT: the root atom [6,11) and its bonded atoms from column 11. */
  function ConectRecord(st: State, line: string): (r: Option<State>)
    ensures r.Some? ==> r.value == st.(bondedAtoms := r.value.bondedAtoms)
  {
    if |line| < 11 then None
    else
      var root :- ParseInt(line[6..11]);
      var partners :- ConectPartners(line, 11);
    Some(st.(bondedAtoms := st.bondedAtoms + PairsWith(root, partners)))
  }

  /** CHEMBOND: kept only when splitting on ' ' gives exactly three tokens. */
  function ChemBondRecord(st: State, line: string): (r: Option<State>)
    ensures r.Some? ==> r.value == st.(chemBonds := r.value.chemBonds)
    ensures |Split(line, ' ')| != 3 ==> r == Some(st)
  {
    var tokens := Split(line, ' ');
    if |tokens| == 3 then
      var x :- ParseInt(tokens[1]);
      var y :- ParseInt(tokens[2]);
      Some(st.(chemBonds := st.chemBonds + [Int2(x, y)]))
    else Some(st)
  }

  // ---------------------------------------------------------------- the pass

  /**
   * The kinds of line the loop tells apart, in the order of its tests. An ATOM or HETATM
   * record falls through to the CHEMBOND, ENDMDL, HELIX, SHEET and CONECT tests in the
   * source; no line starts with two of these names, so each line has one kind.
   */
  datatype LineKind = Blank | SkippedHet | AtomLine(isHet: bool) | ChemBondLine | EndModelLine
                    | HelixLine | SheetLine | ConectLine | OtherLine

  function Classify(line: string, opts: Options): LineKind {
    if AllWhite(line) then Blank
    else if |line| > 3 && StartsWith(line, "HETATM") && !opts.readHET then SkippedHet
    else if |line| > 3 && (StartsWith(line, "ATOM") || StartsWith(line, "HETATM")) then
      AtomLine(StartsWith(line, "HETATM"))
    else if |line| > 3 && StartsWith(line, "CHEMBOND") then ChemBondLine
    else if |line| >= 6 && StartsWith(line, "ENDMDL") then EndModelLine
    else if |line| >= 5 && StartsWith(line, "HELIX") then HelixLine
    else if |line| >= 5 && StartsWith(line, "SHEET") then SheetLine
    else if StartsWith(line, "CONECT") then ConectLine
    else OtherLine
  }

  /** One iteration of the while loop; None is an exception. */
  function Step(st: State, line: string, opts: Options, env: Env): (r: Option<State>)
    requires Inv(st, opts)
    ensures r.Some? ==> Inv(r.value, opts)
    ensures AllWhite(line) ==> r == Some(st)
  {
    match Classify(line, opts)
    case Blank => Some(st)
    case SkippedHet => Some(st)
    case AtomLine(isHet) => AtomRecord(st, line, isHet, opts, env)
    case ChemBondLine => ChemBondRecord(st, line)
    case EndModelLine => Some(EndModel(st, opts))
    case HelixLine => HelixRecord(st, line)
    case SheetLine => SheetRecord(st, line)
    case ConectLine => ConectRecord(st, line)
    case OtherLine => Some(st)
  }

  /** The while loop from line i on; an exception is reported with its 1-based line number. */
  function RunFrom(st: State, lines: seq<string>, i: nat, opts: Options, env: Env): (r: Result<State, ReadError>)
    requires i <= |lines| && Inv(st, opts)
    ensures r.Success? ==> Inv(r.value, opts)
    decreases |lines| - i
  {
    if i == |lines| then Success(st)
    else
      match Step(st, lines[i], opts, env)
      case None => Failure(ParsingException(i + 1, lines[i]))
      case Some(next) => RunFrom(next, lines, i + 1, opts, env)
  }

  /** After the loop: the pending groups are closed; without any model the parse fails. */
  function Finish(st: State, opts: Options): (r: Result<Parsed, ReadError>)
    requires Inv(st, opts)
    ensures r.Success? ==> r.value.frames == st.traj.frames && r.value.connectivity == st.bondedAtoms
  {
    var s := FlushModel(FlushChain(FlushResidue(st)));
    if s.models == [] then Failure(NoModels)
    else Success(Parsed(s.models, s.traj.frames, s.bondedAtoms, s.chemBonds, s.parsedSS, s.diags))
  }

  /** ReadData on the lines of a file. */
  function Read(lines: seq<string>, opts: Options, env: Env): Result<Parsed, ReadError> {
    var st :- RunFrom(Init, lines, 0, opts, env);
    Finish(st, opts)
  }
}
