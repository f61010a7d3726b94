/**
 * The molecular hierarchy the PDB reader builds: atoms grouped into residues, residues
 * into chains, chains into models. Values, not objects: an atom's residue, a residue's
 * chain and a chain's model are the containers that hold them.
 */
module Molecule {

  /** A position. Float arithmetic is not modelled: components are exact reals. */
  datatype Vec3 = Vec3(x: real, y: real, z: real)

  const Origin: Vec3 := Vec3(0.0, 0.0, 0.0)

  /**
   * UnityMolAtom as the reader creates it: name (possibly renamed to be unique in its
   * residue), element symbol, position with the x axis already inverted, B-factor,
   * serial number from the file, heteroatom flag and ligand flag.
   */
  datatype Atom = Atom(name: string, element: string, position: Vec3, bfactor: real,
                       number: int, isHET: bool, isLigand: bool)

  /** UnityMolResidue(id, atoms, name); the name carries "_<code>" after an insertion code. */
  datatype Residue = Residue(id: int, atoms: seq<Atom>, name: string)

  /** UnityMolChain(residues, name); a blank chain identifier is stored as "_". */
  datatype Chain = Chain(residues: seq<Residue>, name: string)

  /** UnityMolModel(chains, name) together with its flat allAtoms list. */
  datatype Model = Model(chains: seq<Chain>, name: string, allAtoms: seq<Atom>)

  /** A bonded pair of atom serial numbers (Int2). */
  datatype Int2 = Int2(x: int, y: int)

  /**
   * The integer codes of UnityMolResidue.secondaryStructureType. The reader casts the
   * HELIX class column straight to this enumeration, so the nine helix kinds carry the
   * helix class numbers 1 to 9 of the PDB format; Strand is a further, distinct code.
   */
  const Helix: int := 1
  const HelixRightOmega: int := 2
  const HelixRightPi: int := 3
  const HelixRightGamma: int := 4
  const Helix310: int := 5
  const HelixLeftAlpha: int := 6
  const HelixLeftOmega: int := 7
  const HelixLeftGamma: int := 8
  const Helix27: int := 9
  const Strand: int := 11

  /** The nine helix kinds the writer groups into HELIX records. */
  predicate IsHelixType(t: int) {
    t == Helix || t == HelixRightOmega || t == HelixRightPi || t == HelixRightGamma ||
    t == Helix310 || t == HelixLeftAlpha || t == HelixLeftOmega || t == HelixLeftGamma ||
    t == Helix27
  }

  /** A secondary-structure range as parsed from a HELIX or SHEET record (secStruct). */
  datatype SecStruct = SecStruct(start: int, end: int, chain: string, ssType: int)

  /** The atoms of a sequence of residues, in order. */
  function AtomsOfResidues(rs: seq<Residue>): seq<Atom> {
    if rs == [] then [] else AtomsOfResidues(rs[..|rs| - 1]) + rs[|rs| - 1].atoms
  }

  /** The atoms of a sequence of chains, in order. */
  function AtomsOfChains(cs: seq<Chain>): seq<Atom> {
    if cs == [] then [] else AtomsOfChains(cs[..|cs| - 1]) + AtomsOfResidues(cs[|cs| - 1].residues)
  }

  function Positions(atoms: seq<Atom>): (r: seq<Vec3>)
    ensures |r| == |atoms| && forall i :: 0 <= i < |atoms| ==> r[i] == atoms[i].position
  {
    seq(|atoms|, i requires 0 <= i < |atoms| => atoms[i].position)
  }

  lemma AtomsOfResiduesAppend(rs: seq<Residue>, r: Residue)
    ensures AtomsOfResidues(rs + [r]) == AtomsOfResidues(rs) + r.atoms
  {
    assert (rs + [r])[..|rs|] == rs;
  }

  lemma AtomsOfChainsAppend(cs: seq<Chain>, c: Chain)
    ensures AtomsOfChains(cs + [c]) == AtomsOfChains(cs) + AtomsOfResidues(c.residues)
  {
    assert (cs + [c])[..|cs|] == cs;
  }
}
